/**
 Bounded retry of one GET (app/clients/http_client.py) and the two-step parcel lookup built on it
 (app/clients/vworld_client.py).

 The network is an arbitrary oracle: it fixes what every single attempt would return.  `Meter` counts
 what reaches the outside world: GETs, and sleeps in multiples of the configured backoff.
 */
module HttpClient {
  import opened Common

  /** What a decoded answer says: geocoder status and point, and the first parcel outline if any. */
  datatype Body = Body(statusOk: bool, point: Option<string>, outline: Option<string>)

  datatype Attempt = Json(body: Body) | Retryable | NonRetryable

  datatype Step = Geocoder | Wfs

  /** One GET attempt of a back-fill run: the pass, the row looked up, the step and the try number. */
  datatype Query = Query(pass: nat, id: nat, address: string, step: Step, tryNo: nat)

  datatype Answer = Ok(body: Body) | Rejected | Exhausted | NeverTried

  /** The network, the configured number of tries per GET, and the GeoJSON text written for a bare point. */
  datatype World = World(net: Query -> Attempt, retries: nat, pointJson: string -> string) {

    function At(q: Query, n: nat): Attempt { net(q.(tryNo := n)) }

    // ---------- get_json_with_retry ----------

    /** The answer when tries 1..n-1 have failed in a retryable way. */
    function AnswerFrom(q: Query, n: nat): Answer
      decreases retries + 1 - n
    {
      if n > retries then (if retries == 0 then NeverTried else Exhausted)
      else match At(q, n)
        case Json(body) => Ok(body)
        case NonRetryable => Rejected
        case Retryable => AnswerFrom(q, n + 1)
    }

    /** How many GETs tries n, n+1, ... issue. */
    function GetsFrom(q: Query, n: nat): nat
      decreases retries + 1 - n
    {
      if n > retries then 0
      else if At(q, n).Retryable? then 1 + GetsFrom(q, n + 1)
      else 1
    }

    function Fetch(q: Query): Answer { AnswerFrom(q, 1) }

    function Gets(q: Query): nat { GetsFrom(q, 1) }

    // ---------- get_parcel_geometry ----------

    function GeoQuery(pass: nat, id: nat, address: string): Query { Query(pass, id, address, Geocoder, 0) }

    function WfsQuery(pass: nat, id: nat, address: string): Query { Query(pass, id, address, Wfs, 0) }

    function GeoPoint(pass: nat, id: nat, address: string): Option<string> {
      match Fetch(GeoQuery(pass, id, address))
      case Ok(body) => if body.statusOk then body.point else None
      case _ => None
    }

    /** The truth test that `update_geoms` puts to a lookup result. */
    predicate Found(pass: nat, id: nat, address: string) {
      Lookup(pass, id, address).Some? && Lookup(pass, id, address).value != ""
    }

    function Lookup(pass: nat, id: nat, address: string): Option<string> {
      match GeoPoint(pass, id, address)
      case None => None
      case Some(point) =>
        match Fetch(WfsQuery(pass, id, address))
        case Ok(body) => Some(if body.outline.Some? then body.outline.value else pointJson(point))
        case _ => None
    }

    /** Backoff units slept by one GET: 1 + 2 + ... up to one less than the number of tries. */
    function HttpSleep(q: Query): nat { if Gets(q) == 0 then 0 else Triangle(Gets(q) - 1) }

    function LookupSleep(pass: nat, id: nat, address: string): nat {
      HttpSleep(GeoQuery(pass, id, address))
      + (if GeoPoint(pass, id, address).Some? then HttpSleep(WfsQuery(pass, id, address)) else 0)
    }

    function LookupGets(pass: nat, id: nat, address: string): nat {
      Gets(GeoQuery(pass, id, address))
      + (if GeoPoint(pass, id, address).Some? then Gets(WfsQuery(pass, id, address)) else 0)
    }
  }

  /** 0 + 1 + ... + n: the backoff units slept by n sleeps of growing length. */
  function Triangle(n: nat): nat { n * (n + 1) / 2 }

  class Meter {
    var gets: nat
    var httpSleep: nat
    var passSleep: nat

    constructor ()
      ensures gets == httpSleep == passSleep == 0
    {
      gets, httpSleep, passSleep := 0, 0, 0;
    }
  }

  lemma TriangleStep(n: nat)
    ensures Triangle(n + 1) == Triangle(n) + n + 1
  {
  }

  /**
   One GET with retries: the answer is the oracle's first decisive one, at most `retries` GETs are
   issued, and the sleeps between them add up to one triangle of backoff units.
   */
  method GetJsonWithRetry(w: World, q: Query, meter: Meter) returns (answer: Answer)
    modifies meter
    ensures answer == w.Fetch(q)
    ensures meter.gets == old(meter.gets) + w.Gets(q)
    ensures meter.httpSleep == old(meter.httpSleep) + w.HttpSleep(q)
    ensures meter.passSleep == old(meter.passSleep)
  {
    var attempt := 1;
    while attempt <= w.retries
      invariant 1 <= attempt <= w.retries + 1
      invariant w.AnswerFrom(q, attempt) == w.Fetch(q)
      invariant meter.gets == old(meter.gets) + attempt - 1
      invariant w.Gets(q) == attempt - 1 + w.GetsFrom(q, attempt)
      invariant meter.httpSleep == old(meter.httpSleep)
                                   + (if attempt <= w.retries then Triangle(attempt - 1)
                                      else if w.retries == 0 then 0 else Triangle(w.retries - 1))
      invariant meter.passSleep == old(meter.passSleep)
    {
      meter.gets := meter.gets + 1;
      match w.At(q, attempt) {
        case Json(body) => return Ok(body);
        case NonRetryable => return Rejected;
        case Retryable =>
      }
      if attempt < w.retries {
        meter.httpSleep := meter.httpSleep + attempt;
        TriangleStep(attempt - 1);
      }
      attempt := attempt + 1;
    }
    answer := if w.retries == 0 then NeverTried else Exhausted;
  }

  method GetParcelGeometry(w: World, pass: nat, id: nat, address: string, meter: Meter) returns (geom: Option<string>)
    modifies meter
    ensures geom == w.Lookup(pass, id, address)
    ensures meter.gets == old(meter.gets) + w.LookupGets(pass, id, address)
    ensures meter.httpSleep == old(meter.httpSleep) + w.LookupSleep(pass, id, address)
    ensures meter.passSleep == old(meter.passSleep)
  {
    var res := GetJsonWithRetry(w, w.GeoQuery(pass, id, address), meter);
    if !res.Ok? || !res.body.statusOk || res.body.point.None? {
      return None;
    }
    var wfs := GetJsonWithRetry(w, w.WfsQuery(pass, id, address), meter);
    if !wfs.Ok? {
      return None;
    }
    return Some(if wfs.body.outline.Some? then wfs.body.outline.value else w.pointJson(res.body.point.value));
  }

  // ---------- what the retry loop amounts to ----------

  /** An answer is returned iff some try within the budget gave it and every earlier try was retryable. */
  lemma FetchIsFirstDecisive(w: World, q: Query, body: Body)
    ensures w.Fetch(q) == Ok(body) <==>
            exists k: nat :: 1 <= k <= w.retries && w.At(q, k) == Json(body)
                             && forall j: nat :: 1 <= j < k ==> w.At(q, j).Retryable?
  {
    AnswerFromIsFirstDecisive(w, q, 1, body);
  }

  lemma {:induction false} AnswerFromIsFirstDecisive(w: World, q: Query, n: nat, body: Body)
    ensures w.AnswerFrom(q, n) == Ok(body) <==>
            exists k: nat :: n <= k <= w.retries && w.At(q, k) == Json(body)
                             && forall j: nat :: n <= j < k ==> w.At(q, j).Retryable?
    decreases w.retries + 1 - n
  {
    if n <= w.retries {
      AnswerFromIsFirstDecisive(w, q, n + 1, body);
      match w.At(q, n) {
        case Json(b) =>
        case NonRetryable =>
        case Retryable =>
          if w.AnswerFrom(q, n + 1) == Ok(body) {
            var k: nat :| n + 1 <= k <= w.retries && w.At(q, k) == Json(body)
                          && forall j: nat :: n + 1 <= j < k ==> w.At(q, j).Retryable?;
            assert forall j: nat :: n <= j < k ==> w.At(q, j).Retryable?;
          }
      }
    }
  }

  /** As many GETs as it takes to get a decisive answer, or all the tries there are. */
  lemma {:induction false} GetsAreExact(w: World, q: Query, n: nat, k: nat)
    requires 1 <= n <= k && (forall j: nat :: n <= j < k ==> w.At(q, j).Retryable?)
    ensures k <= w.retries && !w.At(q, k).Retryable? ==> w.GetsFrom(q, n) == k - n + 1
    ensures k == w.retries + 1 ==> w.GetsFrom(q, n) == w.retries + 1 - n
    decreases k - n
  {
    if n < k && n <= w.retries { GetsAreExact(w, q, n + 1, k); }
  }

  /** Try `k` of the request is the first that is not to be retried, and there is a try `k`. */
  ghost predicate FirstDecisive(w: World, pass: nat, id: nat, address: string, step: Step, k: nat) {
    && 1 <= k <= w.retries && !w.net(Query(pass, id, address, step, k)).Retryable?
    && forall j: nat :: 1 <= j < k ==> w.net(Query(pass, id, address, step, j)).Retryable?
  }

  /** The first try that is not to be retried answers the request with `body`. */
  ghost predicate Answers(w: World, pass: nat, id: nat, address: string, step: Step, body: Body) {
    exists k: nat :: FirstDecisive(w, pass, id, address, step, k)
                     && w.net(Query(pass, id, address, step, k)) == Json(body)
  }

  lemma FetchAnswers(w: World, pass: nat, id: nat, address: string, step: Step, body: Body)
    ensures w.Fetch(Query(pass, id, address, step, 0)) == Ok(body) <==> Answers(w, pass, id, address, step, body)
  {
    var q := Query(pass, id, address, step, 0);
    FetchIsFirstDecisive(w, q, body);
    forall k: nat ensures w.At(q, k) == w.net(Query(pass, id, address, step, k)) {}
    if w.Fetch(q) == Ok(body) {
      var k: nat :| 1 <= k <= w.retries && w.At(q, k) == Json(body)
                    && forall j: nat :: 1 <= j < k ==> w.At(q, j).Retryable?;
      assert FirstDecisive(w, pass, id, address, step, k);
    }
  }

  /** The geocoder knows the address, and this is where it is. */
  ghost predicate Located(w: World, pass: nat, id: nat, address: string, point: string) {
    exists body :: Answers(w, pass, id, address, Geocoder, body) && body.statusOk && body.point == Some(point)
  }

  /**
   A parcel lookup, told from its single attempts: it finds `geom` iff the geocoder answers OK with a point,
   the WFS answers, and `geom` is the first outline it returns, or the bare point if it returns none.
   */
  lemma LookupIs(w: World, pass: nat, id: nat, address: string, geom: string)
    ensures w.Lookup(pass, id, address) == Some(geom) <==>
            exists point, body :: Located(w, pass, id, address, point) && Answers(w, pass, id, address, Wfs, body)
                                  && geom == (if body.outline.Some? then body.outline.value else w.pointJson(point))
    ensures w.Found(pass, id, address) <==>
            exists g: string :: g != "" && w.Lookup(pass, id, address) == Some(g)
  {
    LocatedIs(w, pass, id, address);
    forall body { FetchAnswers(w, pass, id, address, Wfs, body); }
    if w.Found(pass, id, address) { assert w.Lookup(pass, id, address).value != ""; }
    if w.Lookup(pass, id, address) == Some(geom) {
      var point, body := w.GeoPoint(pass, id, address).value, w.Fetch(w.WfsQuery(pass, id, address)).body;
      assert Located(w, pass, id, address, point) && Answers(w, pass, id, address, Wfs, body);
    }
  }

  lemma LocatedIs(w: World, pass: nat, id: nat, address: string)
    ensures forall point :: w.GeoPoint(pass, id, address) == Some(point) <==> Located(w, pass, id, address, point)
  {
    forall body
      ensures w.Fetch(w.GeoQuery(pass, id, address)) == Ok(body) <==> Answers(w, pass, id, address, Geocoder, body)
    {
      FetchAnswers(w, pass, id, address, Geocoder, body);
    }
  }

  /** How many tries the request makes: up to its first decisive one, or all there are. */
  ghost predicate Tries(w: World, pass: nat, id: nat, address: string, step: Step, n: nat) {
    || FirstDecisive(w, pass, id, address, step, n)
    || (n == w.retries && forall j: nat :: 1 <= j <= n ==> w.net(Query(pass, id, address, step, j)).Retryable?)
  }

  /** 1 + 2 + ... + (n - 1): the backoff units slept before try `n`.  There is no sleep after the last try. */
  function SleepsBefore(n: nat): nat { if n <= 1 then 0 else SleepsBefore(n - 1) + (n - 1) }

  lemma {:induction false} SleepsBeforeIs(n: nat)
    requires 1 <= n
    ensures SleepsBefore(n) == Triangle(n - 1)
  {
    if n > 1 {
      SleepsBeforeIs(n - 1);
      TriangleStep(n - 2);
    }
  }

  lemma RequestCostIs(w: World, pass: nat, id: nat, address: string, step: Step, n: nat)
    requires Tries(w, pass, id, address, step, n)
    ensures w.Gets(Query(pass, id, address, step, 0)) == n
    ensures w.HttpSleep(Query(pass, id, address, step, 0)) == SleepsBefore(n)
  {
    var q := Query(pass, id, address, step, 0);
    forall k: nat ensures w.At(q, k) == w.net(Query(pass, id, address, step, k)) {}
    GetsAreExact(w, q, 1, if FirstDecisive(w, pass, id, address, step, n) then n else n + 1);
    if n > 0 { SleepsBeforeIs(n); }
  }

  /**
   What a parcel lookup costs, exactly: the geocoder's tries, and those of the WFS only if the geocoder has
   answered OK with a point; and the sleeps before each of them.
   */
  lemma LookupCostIs(w: World, pass: nat, id: nat, address: string, geo: nat, wfs: nat)
    requires Tries(w, pass, id, address, Geocoder, geo) && Tries(w, pass, id, address, Wfs, wfs)
    ensures var asked := exists point :: Located(w, pass, id, address, point);
            && w.LookupGets(pass, id, address) == geo + (if asked then wfs else 0)
            && w.LookupSleep(pass, id, address) == SleepsBefore(geo) + (if asked then SleepsBefore(wfs) else 0)
  {
    LocatedIs(w, pass, id, address);
    RequestCostIs(w, pass, id, address, Geocoder, geo);
    RequestCostIs(w, pass, id, address, Wfs, wfs);
    if w.GeoPoint(pass, id, address).Some? {
      assert Located(w, pass, id, address, w.GeoPoint(pass, id, address).value);
    }
  }

  lemma {:induction false} GetsFromBounded(w: World, q: Query, n: nat)
    requires 1 <= n <= w.retries + 1
    ensures w.GetsFrom(q, n) <= w.retries + 1 - n
    decreases w.retries + 1 - n
  {
    if n <= w.retries { GetsFromBounded(w, q, n + 1); }
  }

  lemma {:induction false} TriangleMonotone(m: nat, n: nat)
    requires m <= n
    ensures Triangle(m) <= Triangle(n)
    decreases n
  {
    if m < n {
      TriangleMonotone(m, n - 1);
      TriangleStep(n - 1);
    }
  }

  /** One GET sleeps at most R(R-1)/2 backoff units. */
  lemma HttpSleepBounded(w: World, q: Query)
    ensures w.HttpSleep(q) <= Triangle(Max(0, w.retries - 1))
  {
    GetsFromBounded(w, q, 1);
    if 0 < w.Gets(q) { TriangleMonotone(w.Gets(q) - 1, w.retries - 1); }
  }

  /** ... and so a parcel lookup sleeps at most twice that. */
  lemma LookupSleepBounded(w: World, pass: nat, id: nat, address: string)
    ensures w.LookupSleep(pass, id, address) <= 2 * Triangle(Max(0, w.retries - 1))
  {
    HttpSleepBounded(w, w.GeoQuery(pass, id, address));
    HttpSleepBounded(w, w.WfsQuery(pass, id, address));
  }

  /** A parcel lookup is at most two requests of at most `retries` GETs each. */
  lemma LookupGetsBounded(w: World, pass: nat, id: nat, address: string)
    ensures w.LookupGets(pass, id, address) <= 2 * w.retries
  {
    GetsFromBounded(w, w.GeoQuery(pass, id, address), 1);
    GetsFromBounded(w, w.WfsQuery(pass, id, address), 1);
  }
}
