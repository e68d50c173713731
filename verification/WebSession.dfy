/**
 Browser sessions (frontend/src/map/web-session-store.ts, frontend/src/map/session-tracker.ts): two cookies
 decide which session an event belongs to, and a new session is announced before anything else is posted
 for it.

 Times are milliseconds.  A cookie is readable until its `Max-Age` has passed (RFC 6265, section 5.3).
 */
module WebSession {
  import opened Common

  const TIMEOUT_MS := 1800000
  const MAX_AGE_MS := 86400000

  datatype Cookie<T> = Cookie(value: T, written: int)

  datatype Jar = Jar(sessionId: Option<Cookie<string>>, lastSeen: Option<Cookie<int>>)

  const EMPTY_JAR := Jar(None, None)

  function Read<T>(c: Option<Cookie<T>>, now: int): Option<T> {
    if c.Some? && now - c.value.written <= MAX_AGE_MS then Some(c.value.value) else None
  }

  /** The session goes on: both cookies are readable and the last event is recent enough. */
  predicate Continues(j: Jar, now: int) {
    var id, seen := Read(j.sessionId, now), Read(j.lastSeen, now);
    id.Some? && id.value != "" && seen.Some? && now - seen.value <= TIMEOUT_MS
  }

  function SessionOf(j: Jar, now: int, clientId: string): string {
    if Continues(j, now) then j.sessionId.value.value else clientId
  }

  /** Only a new session writes its id again; the time of the last event is always written. */
  function JarAfter(j: Jar, now: int, clientId: string): Jar {
    Jar(if Continues(j, now) then j.sessionId else Some(Cookie(clientId, now)), Some(Cookie(now, now)))
  }

  class WebSessionStore {
    var sessionIdCookie: Option<Cookie<string>>
    var lastSeenCookie: Option<Cookie<int>>

    function Value(): Jar
      reads this
    {
      Jar(sessionIdCookie, lastSeenCookie)
    }

    constructor ()
      ensures Value() == EMPTY_JAR
    {
      sessionIdCookie, lastSeenCookie := None, None;
    }

    method GetOrCreateWebSession(now: int, clientId: string) returns (sessionId: string, isNew: bool)
      modifies this
      ensures Value() == JarAfter(old(Value()), now, clientId)
      ensures sessionId == SessionOf(old(Value()), now, clientId) && isNew == !old(Continues(Value(), now))
    {
      var existingSessionId := Read(sessionIdCookie, now);
      var existingLastSeen := Read(lastSeenCookie, now);
      var isExpired := existingLastSeen.None? || now - existingLastSeen.value > TIMEOUT_MS;
      if existingSessionId.None? || existingSessionId.value == "" || isExpired {
        sessionId, isNew := clientId, true;
        sessionIdCookie := Some(Cookie(sessionId, now));
        lastSeenCookie := Some(Cookie(now, now));
        return;
      }
      lastSeenCookie := Some(Cookie(now, now));
      return existingSessionId.value, false;
    }
  }

  // ---------- which events share a session ----------

  datatype Visit = Visit(now: int, clientId: string)

  /** Time does not run backwards and no two client ids are equal. */
  ghost predicate Proper(visits: seq<Visit>) {
    && (forall i, j :: 0 <= i < j < |visits| ==> visits[i].now <= visits[j].now)
    && (forall i, j :: 0 <= i < j < |visits| ==> visits[i].clientId != visits[j].clientId)
    && (forall i :: 0 <= i < |visits| ==> visits[i].clientId != "")
  }

  /** The cookies before visit `k` of a browser that starts with none. */
  function JarBefore(visits: seq<Visit>, k: nat): Jar
    requires k <= |visits|
  {
    if k == 0 then EMPTY_JAR else JarAfter(JarBefore(visits, k - 1), visits[k - 1].now, visits[k - 1].clientId)
  }

  /** The session id that visit `k` gets. */
  function Assigned(visits: seq<Visit>, k: nat): string
    requires k < |visits|
  {
    SessionOf(JarBefore(visits, k), visits[k].now, visits[k].clientId)
  }

  /** The visit that opens the session of visit `k`, told from the times alone. */
  function Opener(visits: seq<Visit>, k: nat): (o: nat)
    requires k < |visits|
    ensures o <= k
  {
    if k == 0 then 0
    else
      var o := Opener(visits, k - 1);
      if visits[k].now - visits[k - 1].now > TIMEOUT_MS || visits[k].now - visits[o].now > MAX_AGE_MS then k else o
  }

  lemma {:induction false} CookiesTellTheOpener(visits: seq<Visit>, k: nat)
    requires Proper(visits) && k < |visits|
    ensures Assigned(visits, k) == visits[Opener(visits, k)].clientId
    ensures var o := visits[Opener(visits, k)];
            JarBefore(visits, k + 1) == Jar(Some(Cookie(o.clientId, o.now)), Some(Cookie(visits[k].now, visits[k].now)))
  {
    if k > 0 { CookiesTellTheOpener(visits, k - 1); }
  }

  ghost predicate GapsSmall(visits: seq<Visit>, i: nat, j: nat)
    requires i <= j < |visits|
  {
    forall k :: i < k <= j ==> visits[k].now - visits[k - 1].now <= TIMEOUT_MS
  }

  lemma {:induction false} OpenerIsRecent(visits: seq<Visit>, k: nat)
    requires Proper(visits) && k < |visits|
    ensures visits[k].now - visits[Opener(visits, k)].now <= MAX_AGE_MS
  {
  }

  lemma {:induction false} SameOpener(visits: seq<Visit>, i: nat, j: nat)
    requires Proper(visits) && i <= j < |visits|
    ensures Opener(visits, i) == Opener(visits, j) <==>
            GapsSmall(visits, i, j) && visits[j].now - visits[Opener(visits, i)].now <= MAX_AGE_MS
    decreases j
  {
    hide Opener, GapsSmall, Proper;
    if i == j {
      OpenerIsRecent(visits, i);
      NoGaps(visits, i);
    } else {
      SameOpener(visits, i, j - 1);
      GapsSnoc(visits, i, j);
      OpenerSnoc(visits, i, j);
    }
  }

  lemma NoGaps(visits: seq<Visit>, i: nat)
    requires i < |visits|
    ensures GapsSmall(visits, i, i)
  {
  }

  lemma GapsSnoc(visits: seq<Visit>, i: nat, j: nat)
    requires Proper(visits) && i < j < |visits|
    ensures GapsSmall(visits, i, j) <==>
            GapsSmall(visits, i, j - 1) && visits[j].now - visits[j - 1].now <= TIMEOUT_MS
    ensures visits[j - 1].now <= visits[j].now
  {
  }

  lemma OpenerSnoc(visits: seq<Visit>, i: nat, j: nat)
    requires i < j < |visits|
    ensures Opener(visits, i) == Opener(visits, j) <==>
            && Opener(visits, i) == Opener(visits, j - 1)
            && visits[j].now - visits[j - 1].now <= TIMEOUT_MS
            && visits[j].now - visits[Opener(visits, i)].now <= MAX_AGE_MS
  {
  }

  /**
   Two events share a session id iff no gap between them exceeds 30 minutes and the later one falls within
   24 hours of the event that opened the session: the id cookie is written once and never renewed.
   */
  lemma SessionsAreSegments(visits: seq<Visit>, i: nat, j: nat)
    requires Proper(visits) && i <= j < |visits|
    ensures Assigned(visits, i) == Assigned(visits, j) <==>
            && (forall k :: i < k <= j ==> visits[k].now - visits[k - 1].now <= 1_800_000)
            && visits[j].now - visits[Opener(visits, i)].now <= 86_400_000
  {
    CookiesTellTheOpener(visits, i);
    CookiesTellTheOpener(visits, j);
    SameOpener(visits, i, j);
  }

  function HalfHourly(n: nat): seq<Visit> {
    seq(n, i requires 0 <= i < n => Visit(i * TIMEOUT_MS, seq(i + 1, _ => 'x')))
  }

  lemma HalfHourlyIsProper(n: nat)
    ensures Proper(HalfHourly(n)) && (n > 0 ==> GapsSmall(HalfHourly(n), 0, n - 1))
  {
  }

  /** Gaps alone do not decide: a visitor seen every 30 minutes gets a second session after a day. */
  lemma ADayEndsASession(k: nat)
    requires k > 48
    ensures var visits := HalfHourly(k + 1);
            Proper(visits) && GapsSmall(visits, 0, k) && Assigned(visits, 0) != Assigned(visits, k)
  {
    HalfHourlyIsProper(k + 1);
    SessionsAreSegments(HalfHourly(k + 1), 0, k);
  }

  // ---------- what is posted, and in which order ----------

  datatype EventType = VisitStart | Heartbeat | VisitEnd

  datatype Post = Post(eventType: EventType, sessionId: string)

  /** Posts already started, and those that wait for the `visit_start` of their session to be answered. */
  datatype Tracker = Tracker(jar: Jar, started: seq<Post>, waiting: seq<Post>)

  datatype Step = Send(eventType: EventType, now: int, clientId: string) | Answered(k: nat, ok: bool)

  predicate Enabled(t: Tracker, s: Step) { s.Answered? ==> s.k < |t.waiting| }

  function Next(t: Tracker, s: Step): Tracker
    requires Enabled(t, s)
  {
    match s
    case Send(eventType, now, clientId) =>
      var jar, id := JarAfter(t.jar, now, clientId), SessionOf(t.jar, now, clientId);
      if !Continues(t.jar, now) && eventType != VisitStart then
        Tracker(jar, t.started + [Post(VisitStart, id)], t.waiting + [Post(eventType, id)])
      else Tracker(jar, t.started + [Post(eventType, id)], t.waiting)
    case Answered(k, ok) =>
      Tracker(t.jar, if ok then t.started + [t.waiting[k]] else t.started, t.waiting[..k] + t.waiting[k + 1..])
  }

  class SessionTracker {
    const store: WebSessionStore
    var started: seq<Post>
    var waiting: seq<Post>

    function Value(): Tracker
      reads this, store
    {
      Tracker(store.Value(), started, waiting)
    }

    constructor (store: WebSessionStore)
      ensures this.store == store && Value() == Tracker(store.Value(), [], [])
    {
      this.store := store;
      started, waiting := [], [];
    }

    method SendWebEvent(eventType: EventType, now: int, clientId: string)
      modifies this, store
      ensures Value() == Next(old(Value()), Send(eventType, now, clientId))
    {
      var sessionId, isNew := store.GetOrCreateWebSession(now, clientId);
      if isNew && eventType != VisitStart {
        started := started + [Post(VisitStart, sessionId)];
        waiting := waiting + [Post(eventType, sessionId)];
        return;
      }
      started := started + [Post(eventType, sessionId)];
    }

    /** The `then` and the `catch` of a `visit_start` that something waits for. */
    method VisitStartAnswered(k: nat, ok: bool)
      requires k < |waiting|
      modifies this
      ensures Value() == Next(old(Value()), Answered(k, ok))
    {
      var post := waiting[k];
      waiting := waiting[..k] + waiting[k + 1..];
      if ok { started := started + [post]; }
    }
  }

  /** Any number of pages share the cookies; their calls and their answers come in any order. */
  function Run(steps: seq<Step>): Option<Tracker> {
    if steps == [] then Some(Tracker(EMPTY_JAR, [], []))
    else
      var t := Run(steps[..|steps| - 1]);
      if t.Some? && Enabled(t.value, steps[|steps| - 1]) then Some(Next(t.value, steps[|steps| - 1])) else None
  }

  predicate Announced(started: seq<Post>, id: string) { Post(VisitStart, id) in started }

  ghost predicate Inv(t: Tracker) {
    && (forall i :: 0 <= i < |t.started| && t.started[i].eventType != VisitStart ==>
          Announced(t.started[..i], t.started[i].sessionId))
    && (forall k :: 0 <= k < |t.waiting| ==> Announced(t.started, t.waiting[k].sessionId))
    && (t.jar.sessionId.Some? ==> Announced(t.started, t.jar.sessionId.value.value))
  }

  lemma Extended(started: seq<Post>, p: Post)
    requires forall i :: 0 <= i < |started| && started[i].eventType != VisitStart ==>
               Announced(started[..i], started[i].sessionId)
    requires p.eventType == VisitStart || Announced(started, p.sessionId)
    ensures forall i :: 0 <= i < |started + [p]| && (started + [p])[i].eventType != VisitStart ==>
               Announced((started + [p])[..i], (started + [p])[i].sessionId)
    ensures forall id :: Announced(started, id) ==> Announced(started + [p], id)
  {
    forall i | 0 <= i < |started + [p]| ensures (started + [p])[..i] == started[..i] {}
    assert started[..|started|] == started;
  }

  lemma StepKeepsInv(t: Tracker, s: Step)
    requires Enabled(t, s) && Inv(t)
    ensures Inv(Next(t, s))
  {
    match s {
      case Send(eventType, now, clientId) =>
        var id := SessionOf(t.jar, now, clientId);
        var first := if Continues(t.jar, now) then eventType else VisitStart;
        Extended(t.started, Post(first, id));
      case Answered(k, ok) =>
        Extended(t.started, t.waiting[k]);
    }
  }

  lemma {:induction false} InvHolds(steps: seq<Step>, t: Tracker)
    requires Run(steps) == Some(t)
    ensures Inv(t)
  {
    if steps != [] {
      var before := Run(steps[..|steps| - 1]).value;
      InvHolds(steps[..|steps| - 1], before);
      StepKeepsInv(before, steps[|steps| - 1]);
    }
  }

  /** However calls and answers interleave, the first post started for a session is its `visit_start`. */
  lemma VisitStartIsFirst(steps: seq<Step>, t: Tracker, i: nat)
    requires Run(steps) == Some(t) && i < |t.started|
    requires forall j :: 0 <= j < i ==> t.started[j].sessionId != t.started[i].sessionId
    ensures t.started[i].eventType == VisitStart
  {
    InvHolds(steps, t);
  }

  // ---------- nothing is posted twice, and nothing is lost but what fails ----------

  /** The calls among the steps, as visits. */
  function VisitsOf(steps: seq<Step>): seq<Visit> {
    if steps == [] then []
    else
      var last := steps[|steps| - 1];
      VisitsOf(steps[..|steps| - 1]) + (if last.Send? then [Visit(last.now, last.clientId)] else [])
  }

  /** Visit `k` opens a session. */
  predicate Opens(visits: seq<Visit>, k: nat)
    requires k < |visits|
  {
    !Continues(JarBefore(visits, k), visits[k].now)
  }

  /** ... that is, it is its own opener. */
  lemma OpensIsOpener(visits: seq<Visit>, k: nat)
    requires Proper(visits) && k < |visits|
    ensures Opens(visits, k) <==> Opener(visits, k) == k
  {
    if k > 0 { CookiesTellTheOpener(visits, k - 1); }
  }

  /** What one call owes: its own post, and the `visit_start` of a session that another event opens. */
  function Owed(eventType: EventType, visits: seq<Visit>): multiset<Post>
    requires visits != []
  {
    var k := |visits| - 1;
    multiset{Post(eventType, Assigned(visits, k))}
    + (if Opens(visits, k) && eventType != VisitStart then multiset{Post(VisitStart, Assigned(visits, k))}
       else multiset{})
  }

  function AllOwed(steps: seq<Step>): multiset<Post> {
    if steps == [] then multiset{}
    else
      var last := steps[|steps| - 1];
      AllOwed(steps[..|steps| - 1]) + (if last.Send? then Owed(last.eventType, VisitsOf(steps)) else multiset{})
  }

  /** The events whose `visit_start` failed. */
  function Lost(steps: seq<Step>): multiset<Post>
    requires Run(steps).Some?
  {
    if steps == [] then multiset{}
    else
      var before, last := steps[..|steps| - 1], steps[|steps| - 1];
      Lost(before) + (if last.Answered? && !last.ok then multiset{Run(before).value.waiting[last.k]} else multiset{})
  }

  lemma {:induction false} SameJarBefore(visits: seq<Visit>, more: seq<Visit>, k: nat)
    requires k <= |visits|
    ensures JarBefore(visits + more, k) == JarBefore(visits, k)
  {
    if k > 0 { SameJarBefore(visits, more, k - 1); }
  }

  lemma {:induction false} JarOfRun(steps: seq<Step>, t: Tracker)
    requires Run(steps) == Some(t)
    ensures t.jar == JarBefore(VisitsOf(steps), |VisitsOf(steps)|)
  {
    if steps != [] {
      var before, last := steps[..|steps| - 1], steps[|steps| - 1];
      JarOfRun(before, Run(before).value);
      var visits, more := VisitsOf(before), if last.Send? then [Visit(last.now, last.clientId)] else [];
      assert VisitsOf(steps) == visits + more;
      SameJarBefore(visits, more, |visits|);
      if last.Send? {
        assert (visits + more)[|visits|] == more[0];
        assert JarBefore(visits + more, |visits| + 1) == JarAfter(JarBefore(visits, |visits|), last.now, last.clientId);
      }
    }
  }

  /**
   A call posts at once - the `visit_start` if it opens a session, and otherwise its own event - and its
   own event waits iff it opens a session and is not a `visit_start` itself.
   */
  lemma CallPosts(steps: seq<Step>, before: Tracker, call: Step, t: Tracker)
    requires Run(steps) == Some(before) && call.Send? && Run(steps + [call]) == Some(t)
    ensures var visits := VisitsOf(steps + [call]);
            var k := |VisitsOf(steps)|;
            && visits == VisitsOf(steps) + [Visit(call.now, call.clientId)]
            && t.started == before.started
                            + [Post(if Opens(visits, k) then VisitStart else call.eventType, Assigned(visits, k))]
            && t.waiting == before.waiting
                            + (if Opens(visits, k) && call.eventType != VisitStart
                               then [Post(call.eventType, Assigned(visits, k))] else [])
  {
    assert (steps + [call])[..|steps|] == steps;
    JarOfRun(steps, before);
    SameJarBefore(VisitsOf(steps), [Visit(call.now, call.clientId)], |VisitsOf(steps)|);
  }

  /** An answer takes its own event out of the waiting ones, and posts it iff the `visit_start` succeeded. */
  lemma AnswerPosts(steps: seq<Step>, before: Tracker, k: nat, ok: bool, t: Tracker)
    requires Run(steps) == Some(before) && Run(steps + [Answered(k, ok)]) == Some(t)
    ensures k < |before.waiting| && t.waiting == before.waiting[..k] + before.waiting[k + 1..]
    ensures t.started == before.started + (if ok then [before.waiting[k]] else [])
  {
    assert (steps + [Answered(k, ok)])[..|steps|] == steps;
  }

  lemma TakeOut<T>(s: seq<T>, k: nat)
    requires k < |s|
    ensures multiset(s) == multiset(s[..k] + s[k + 1..]) + multiset{s[k]}
  {
    assert s == s[..k] + [s[k]] + s[k + 1..];
  }

  lemma OwedSnoc(steps: seq<Step>, step: Step)
    requires Run(steps + [step]).Some?
    ensures AllOwed(steps + [step])
            == AllOwed(steps) + (if step.Send? then Owed(step.eventType, VisitsOf(steps + [step])) else multiset{})
    ensures Run(steps).Some?
    ensures step.Answered? ==> step.k < |Run(steps).value.waiting|
    ensures step.Send? || step.ok ==> Lost(steps + [step]) == Lost(steps)
    ensures step.Answered? && !step.ok ==>
              Lost(steps + [step]) == Lost(steps) + multiset{Run(steps).value.waiting[step.k]}
  {
    assert (steps + [step])[..|steps|] == steps;
  }

  ghost predicate Balanced(steps: seq<Step>, t: Tracker)
    requires Run(steps).Some?
  {
    multiset(t.started) + multiset(t.waiting) + Lost(steps) == AllOwed(steps)
  }

  lemma BalancedSnoc(steps: seq<Step>, before: Tracker, step: Step, t: Tracker)
    requires Run(steps) == Some(before) && Balanced(steps, before) && Run(steps + [step]) == Some(t)
    ensures Balanced(steps + [step], t)
  {
    hide Run, Next, AllOwed, Lost, Owed, Opens, Assigned, VisitsOf;
    OwedSnoc(steps, step);
    if step.Send? {
      CallPosts(steps, before, step, t);
      CallBalances(before, t, step.eventType, VisitsOf(steps + [step]));
    } else {
      AnswerPosts(steps, before, step.k, step.ok, t);
      AnswerBalances(before, t, step.k, step.ok);
    }
  }

  lemma {:induction false} RunsBalance(steps: seq<Step>, t: Tracker)
    requires Run(steps) == Some(t)
    ensures Balanced(steps, t)
  {
    if steps != [] {
      var n := |steps| - 1;
      var before := Run(steps[..n]).value;
      hide Balanced, Next;
      RunsBalance(steps[..n], before);
      assert steps[..n] + [steps[n]] == steps;
      BalancedSnoc(steps[..n], before, steps[n], t);
    }
  }

  /**
   Over every interleaving of calls and answers: what has been posted, what waits and what was lost to a
   failed `visit_start` are together exactly what the calls owe, each post once.
   */
  lemma EveryEventOnce(steps: seq<Step>, t: Tracker)
    requires Run(steps) == Some(t)
    ensures multiset(t.started) + multiset(t.waiting) + Lost(steps) == AllOwed(steps)
  {
    RunsBalance(steps, t);
  }

  lemma CallBalances(before: Tracker, t: Tracker, eventType: EventType, visits: seq<Visit>)
    requires visits != []
    requires var k := |visits| - 1;
             && t.started == before.started
                             + [Post(if Opens(visits, k) then VisitStart else eventType, Assigned(visits, k))]
             && t.waiting == before.waiting
                             + (if Opens(visits, k) && eventType != VisitStart
                                then [Post(eventType, Assigned(visits, k))] else [])
    ensures multiset(t.started) + multiset(t.waiting)
            == multiset(before.started) + multiset(before.waiting) + Owed(eventType, visits)
  {
    hide Opens, Assigned;
  }

  lemma AnswerBalances(before: Tracker, t: Tracker, k: nat, ok: bool)
    requires k < |before.waiting| && t.waiting == before.waiting[..k] + before.waiting[k + 1..]
    requires t.started == before.started + (if ok then [before.waiting[k]] else [])
    ensures multiset(t.started) + multiset(t.waiting) + (if ok then multiset{} else multiset{before.waiting[k]})
            == multiset(before.started) + multiset(before.waiting)
  {
    TakeOut(before.waiting, k);
  }
}
