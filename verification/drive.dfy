/** The drive-assist HUD (drive_logic.js): the drive clock and fatigue
    reminder, automatic night mode, the alert list, the front-distance
    read-out from detected road objects, the speed read-out and the
    speed-limit sign reader's bookkeeping (region de-duplication, image
    thresholding, limit update). The detector and the OCR engine are not part
    of this model: their outputs are inputs. */
module Drive {
  import opened Base

  // ---------------------------------------------------------------------
  // Clock

  /** `Math.floor((Date.now() - driveStartTime) / 1000)`: whole seconds. */
  function ElapsedSeconds(nowMs: int, startMs: int): (r: int)
    ensures r * 1000 <= nowMs - startMs < r * 1000 + 1000
  {
    FloorDiv(nowMs - startMs, 1000)
  }

  /** The hours, minutes and seconds shown as `hh:mm:ss` (before padding),
      computed as the page does with JavaScript's `%`. */
  datatype Clock = Clock(hours: int, mins: int, secs: int)

  function Duration(elapsed: int): (r: Clock)
    ensures elapsed >= 0 ==> r.hours * 3600 + r.mins * 60 + r.secs == elapsed
    ensures elapsed >= 0 ==> r.hours >= 0 && 0 <= r.mins < 60 && 0 <= r.secs < 60
  {
    var c := Clock(FloorDiv(elapsed, 3600), FloorDiv(JsRem(elapsed, 3600), 60), JsRem(elapsed, 60));
    assert elapsed >= 0 ==> c.hours * 3600 + c.mins * 60 + c.secs == elapsed by {
      if elapsed >= 0 {
        DurationSplits(elapsed);
      }
    }
    c
  }

  lemma DurationSplits(e: nat)
    ensures (e / 3600) * 3600 + ((e % 3600) / 60) * 60 + e % 60 == e
  {
    var h := e / 3600;
    var rest := e % 3600;
    assert e == h * 3600 + rest;
    assert rest == (rest / 60) * 60 + rest % 60;
    assert e % 60 == rest % 60 by {
      assert e == (h * 60) * 60 + rest;
    }
  }

  /** The break reminder: past two hours of driving, on each half hour. */
  predicate FatigueDue(elapsed: int) {
    elapsed > 7200 && JsRem(elapsed, 1800) == 0
  }

  /** The reminder fires exactly at 2.5 h, 3 h, 3.5 h, …: at `1800 * k`
      seconds for every `k >= 5`, and at no other time. */
  lemma FatigueTimes(elapsed: int)
    ensures FatigueDue(elapsed) <==> exists k :: k >= 5 && elapsed == 1800 * k
  {
    if FatigueDue(elapsed) {
      var k := elapsed / 1800;
      assert elapsed == 1800 * k;
    }
    if exists k :: k >= 5 && elapsed == 1800 * k {
      var k :| k >= 5 && elapsed == 1800 * k;
      assert elapsed % 1800 == 0;
    }
  }

  // ---------------------------------------------------------------------
  // Alerts

  datatype AlertKind = Info | Success | Warning | Danger

  /** One alert element. `id` stands for the element's identity, which the
      auto-removal timer uses. */
  datatype Alert = Alert(id: nat, kind: AlertKind, message: string)

  const MAX_ALERTS: nat := 5

  /** No two shown alerts are the same element. */
  ghost predicate DistinctAlertIds(alerts: seq<Alert>) {
    DistinctBy(alerts, (x: Alert) => x.id)
  }

  /** No shown alert is element `id`: a newly created element. */
  ghost predicate FreshAlertId(alerts: seq<Alert>, id: nat) {
    forall k :: 0 <= k < |alerts| ==> alerts[k].id != id
  }

  /** The first alert of the new alert's kind already carries its text. */
  predicate Duplicate(alerts: seq<Alert>, a: Alert) {
    var first := FirstOfKind(alerts, a.kind);
    first.Some? && alerts[first.value].message == a.message
  }

  /** `addAlert` with its newly created element `a`: ignored when the first
      alert of the same kind carries the same text; otherwise appended,
      dropping the oldest when five are shown. */
  function AddAlert(alerts: seq<Alert>, a: Alert): (r: seq<Alert>)
    requires FreshAlertId(alerts, a.id)
    ensures Duplicate(alerts, a) ==> r == alerts
    ensures !Duplicate(alerts, a) ==>
      && |r| > 0 && r[|r| - 1] == a
      && (|alerts| < MAX_ALERTS ==> r == alerts + [a])
      && (|alerts| >= MAX_ALERTS ==> r == alerts[1..] + [a])
    ensures |alerts| <= MAX_ALERTS ==> |r| <= MAX_ALERTS
    ensures DistinctAlertIds(alerts) ==> DistinctAlertIds(r)
  {
    if Duplicate(alerts, a) then alerts
    else
      var keep := if |alerts| >= MAX_ALERTS then 1 else 0;
      AppendFreshDistinct(alerts, keep, a, (x: Alert) => x.id);
      assert alerts[0..] == alerts;
      alerts[keep..] + [a]
  }

  /** `alertsList.querySelector('.alert-item.' + kind)`: the first alert of
      that kind, in display order. */
  function FirstOfKind(alerts: seq<Alert>, kind: AlertKind): (r: Option<nat>)
    ensures r.Some? ==> r.value < |alerts| && alerts[r.value].kind == kind
    ensures r.Some? ==> forall j :: 0 <= j < r.value ==> alerts[j].kind != kind
    ensures r.None? <==> forall j :: 0 <= j < |alerts| ==> alerts[j].kind != kind
  {
    FirstIndex(alerts, (x: Alert) => x.kind == kind)
  }

  /** Whether `AddAlert` schedules the element's removal. */
  predicate Expires(kind: AlertKind) {
    kind == Info || kind == Success
  }

  /** The five-second timer that `addAlert` sets for an info or success
      alert `a`: that element goes, if it is still shown. */
  function ExpireAlert(alerts: seq<Alert>, a: Alert): (r: seq<Alert>)
    requires Expires(a.kind)
    ensures |r| <= |alerts|
    ensures forall k :: 0 <= k < |r| ==> r[k] in alerts && r[k].id != a.id
    ensures forall k :: 0 <= k < |alerts| && alerts[k].id != a.id ==> alerts[k] in r
    ensures Subseq(r, alerts)
    ensures DistinctAlertIds(alerts) ==> DistinctAlertIds(r)
  {
    var keep := (x: Alert) => x.id != a.id;
    FilterSubseq(alerts, keep);
    SubseqDistinct(Filter(alerts, keep), alerts, (x: Alert) => x.id);
    Filter(alerts, keep)
  }

  /** Expiry keeps every copy of every other alert. */
  lemma ExpireAlertCounts(alerts: seq<Alert>, a: Alert)
    requires Expires(a.kind)
    ensures forall x :: multiset(ExpireAlert(alerts, a))[x] == if x.id != a.id then multiset(alerts)[x] else 0
  {
    FilterCounts(alerts, (x: Alert) => x.id != a.id);
  }

  /** Adding the same alert twice in a row changes the list once: the second
      element is the first of its kind with that text… unless an earlier
      alert of the same kind hides it, or the list was full and lost that
      kind. */
  lemma AddAlertTwice(alerts: seq<Alert>, a: Alert, b: Alert)
    requires forall j :: 0 <= j < |alerts| ==> alerts[j].kind != a.kind
    requires FreshAlertId(alerts, a.id) && FreshAlertId(alerts, b.id) && b.id != a.id
    requires b.kind == a.kind && b.message == a.message
    ensures AddAlert(AddAlert(alerts, a), b) == AddAlert(alerts, a)
  {
    var once := AddAlert(alerts, a);
    assert FirstOfKind(alerts, a.kind).None?;
    var i := |once| - 1;
    assert once[i] == a;
    forall j | 0 <= j < i ensures once[j].kind != a.kind {
      if |alerts| >= MAX_ALERTS {
        assert once[j] == alerts[j + 1];
      } else {
        assert once[j] == alerts[j];
      }
    }
    assert FirstOfKind(once, a.kind) == Some(i);
  }

  /** What reaches the alert list: `addAlert` creating a new element, or the
      five-second timer of an element created earlier. */
  datatype AlertEvent = Show(kind: AlertKind, message: string) | Timeout(alert: Alert)

  /** Alert ids below `next` are taken: every shown element has one. */
  ghost predicate IdsBelow(alerts: seq<Alert>, next: nat) {
    forall k :: 0 <= k < |alerts| ==> alerts[k].id < next
  }

  /** A run of alert events; `addAlert` gives its element the id `next`,
      so elements are numbered in creation order. */
  function AlertRun(alerts: seq<Alert>, next: nat, events: seq<AlertEvent>): seq<Alert>
    requires IdsBelow(alerts, next)
    requires forall k :: 0 <= k < |events| && events[k].Timeout? ==> Expires(events[k].alert.kind)
    decreases |events|
  {
    if |events| == 0 then alerts
    else match events[0]
      case Show(kind, message) => AlertRun(AddAlert(alerts, Alert(next, kind, message)), next + 1, events[1..])
      case Timeout(a) => AlertRun(ExpireAlert(alerts, a), next, events[1..])
  }

  /** Whatever alerts are shown and expire, the list never shows more than
      five alerts nor the same element twice. */
  lemma {:induction false} AlertsStayBounded(alerts: seq<Alert>, next: nat, events: seq<AlertEvent>)
    requires IdsBelow(alerts, next)
    requires forall k :: 0 <= k < |events| && events[k].Timeout? ==> Expires(events[k].alert.kind)
    requires |alerts| <= MAX_ALERTS && DistinctAlertIds(alerts)
    ensures |AlertRun(alerts, next, events)| <= MAX_ALERTS
    ensures DistinctAlertIds(AlertRun(alerts, next, events))
    decreases |events|
  {
    if |events| > 0 {
      match events[0]
      case Show(kind, message) =>
        AlertsStayBounded(AddAlert(alerts, Alert(next, kind, message)), next + 1, events[1..]);
      case Timeout(a) =>
        AlertsStayBounded(ExpireAlert(alerts, a), next, events[1..]);
    }
  }

  // ---------------------------------------------------------------------
  // Night mode

  /** `checkLightConditions`: the new night-mode flag and whether an info
      alert announces a change. */
  function LightStep(night: bool, lux: real): (r: (bool, bool))
    ensures lux < 50.0 ==> r.0
    ensures lux >= 100.0 ==> !r.0
    ensures 50.0 <= lux < 100.0 ==> r.0 == night
    ensures r.1 <==> r.0 != night
  {
    if lux < 50.0 && !night then (true, true)
    else if lux >= 100.0 && night then (false, true)
    else (night, false)
  }

  /** Hysteresis: a second reading at the same level changes nothing, and a
      level that switched the mode one way cannot switch it back. */
  lemma LightHysteresis(night: bool, lux: real, lux': real)
    ensures LightStep(LightStep(night, lux).0, lux) == (LightStep(night, lux).0, false)
    ensures LightStep(night, lux).1 && LightStep(LightStep(night, lux).0, lux').1 ==>
      (lux < 50.0 && lux' >= 100.0) || (lux >= 100.0 && lux' < 50.0)
  {
  }

  // ---------------------------------------------------------------------
  // Road objects and the front distance

  datatype Priority = PDanger | PWarning | PInfo

  datatype RoadObject = RoadObject(priority: Priority, minDist: int, checkSpeed: bool)

  /** `ROAD_OBJECTS`: the detector classes the HUD reacts to. */
  function RoadInfo(cls: string): (r: Option<RoadObject>)
    ensures r.Some? ==> r.value.minDist > 0
    ensures r.Some? && r.value.checkSpeed ==> cls == "stop sign"
  {
    if cls == "person" then Some(RoadObject(PDanger, 30, false))
    else if cls == "bicycle" then Some(RoadObject(PWarning, 20, false))
    else if cls == "car" then Some(RoadObject(PInfo, 15, false))
    else if cls == "motorcycle" then Some(RoadObject(PWarning, 20, false))
    else if cls == "bus" then Some(RoadObject(PInfo, 25, false))
    else if cls == "truck" then Some(RoadObject(PWarning, 25, false))
    else if cls == "traffic light" then Some(RoadObject(PInfo, 50, false))
    else if cls == "stop sign" then Some(RoadObject(PInfo, 30, true))
    else if cls == "dog" then Some(RoadObject(PDanger, 40, false))
    else if cls == "cat" then Some(RoadObject(PWarning, 30, false))
    else None
  }

  /** A prediction in canvas pixels. */
  datatype Box = Box(x: real, y: real, w: real, h: real)
  datatype Prediction = Prediction(cls: string, bbox: Box)

  /** `Math.round(canvasHeight / boxHeight * 2)`; a zero-height box gives
      `Infinity` in the page, which no comparison below accepts. */
  function EstimateMetres(canvasH: real, boxH: real): (r: Option<int>)
    ensures r.None? <==> boxH == 0.0
    ensures boxH != 0.0 ==> r.value == JsRound(canvasH / boxH * 2.0)
  {
    if boxH == 0.0 then None else Some(JsRound(canvasH / boxH * 2.0))
  }

  /** The box's centre is within 30% of the canvas width of its centre line. */
  predicate InFront(canvasW: real, b: Box) {
    var d := b.x + b.w / 2.0 - canvasW / 2.0;
    (if d < 0.0 then -d else d) < canvasW * 0.3
  }

  /** A prediction that counts for the front distance, with its estimate. */
  predicate FrontCandidate(canvasW: real, canvasH: real, p: Prediction) {
    RoadInfo(p.cls).Some? && InFront(canvasW, p.bbox) && EstimateMetres(canvasH, p.bbox.h).Some?
  }

  /** No road object ahead. */
  const NO_FRONT: int := 999

  /** The running minimum in `processDetections`, starting from `best`. */
  function Closest(canvasW: real, canvasH: real, ps: seq<Prediction>, best: int): (r: int)
    ensures r <= best
    ensures forall i :: 0 <= i < |ps| && FrontCandidate(canvasW, canvasH, ps[i]) ==>
      r <= EstimateMetres(canvasH, ps[i].bbox.h).value
    ensures r == best || exists i :: 0 <= i < |ps| && FrontCandidate(canvasW, canvasH, ps[i])
                                     && r == EstimateMetres(canvasH, ps[i].bbox.h).value
    decreases |ps|
  {
    if |ps| == 0 then best
    else
      var p := ps[0];
      var best' := if FrontCandidate(canvasW, canvasH, p) && EstimateMetres(canvasH, p.bbox.h).value < best
                   then EstimateMetres(canvasH, p.bbox.h).value else best;
      var r := Closest(canvasW, canvasH, ps[1..], best');
      assert forall i :: 1 <= i < |ps| ==> ps[i] == ps[1..][i - 1];
      r
  }

  /** The front distance: the least estimate among road objects ahead, or
      `NO_FRONT` (999) when there is none below it. */
  function FrontDistance(canvasW: real, canvasH: real, ps: seq<Prediction>): (r: int)
    ensures r <= NO_FRONT
    ensures forall i :: 0 <= i < |ps| && FrontCandidate(canvasW, canvasH, ps[i]) ==>
      r <= EstimateMetres(canvasH, ps[i].bbox.h).value
    ensures r < NO_FRONT ==> exists i :: 0 <= i < |ps| && FrontCandidate(canvasW, canvasH, ps[i])
                                         && r == EstimateMetres(canvasH, ps[i].bbox.h).value
  {
    Closest(canvasW, canvasH, ps, NO_FRONT)
  }

  /** A known road object whose estimated distance is below its threshold. */
  predicate TooClose(p: Prediction, canvasH: real) {
    && RoadInfo(p.cls).Some?
    && EstimateMetres(canvasH, p.bbox.h).Some?
    && EstimateMetres(canvasH, p.bbox.h).value < RoadInfo(p.cls).value.minDist
  }

  datatype Reaction = Calm | PedestrianWarning | DangerWarning | WarningAlert(metres: int)

  /** What a road object too close provokes. */
  function React(p: Prediction, canvasH: real): (r: Reaction)
    ensures !TooClose(p, canvasH) ==> r == Calm
    ensures TooClose(p, canvasH) && p.cls == "person" ==> r == PedestrianWarning
    ensures TooClose(p, canvasH) && p.cls != "person" && RoadInfo(p.cls).value.priority == PDanger
            ==> r == DangerWarning
    ensures TooClose(p, canvasH) && p.cls != "person" && RoadInfo(p.cls).value.priority == PWarning
            ==> r == WarningAlert(EstimateMetres(canvasH, p.bbox.h).value)
    ensures TooClose(p, canvasH) && RoadInfo(p.cls).value.priority == PInfo ==> r == Calm
  {
    match RoadInfo(p.cls)
    case None => Calm
    case Some(obj) =>
      match EstimateMetres(canvasH, p.bbox.h)
      case None => Calm
      case Some(d) =>
        if d >= obj.minDist then Calm
        else if p.cls == "person" then PedestrianWarning
        else if obj.priority == PDanger then DangerWarning
        else if obj.priority == PWarning then WarningAlert(d)
        else Calm
  }
  /** Which classes can raise which reaction: a pedestrian warning only for a
      person, a danger warning only for a dog, a distance alert only for a
      bicycle, motorcycle, truck or cat; cars, buses, traffic lights and stop
      signs never raise one. A person or dog nearer than its threshold always
      does. */
  lemma ReactionClasses(p: Prediction, canvasH: real)
    ensures React(p, canvasH) == PedestrianWarning ==> p.cls == "person"
    ensures React(p, canvasH) == DangerWarning ==> p.cls == "dog"
    ensures React(p, canvasH).WarningAlert? ==> p.cls in {"bicycle", "motorcycle", "truck", "cat"}
    ensures p.cls in {"car", "bus", "traffic light", "stop sign"} ==> React(p, canvasH) == Calm
    ensures p.cls == "person" && p.bbox.h != 0.0 && JsRound(canvasH / p.bbox.h * 2.0) < 30
            ==> React(p, canvasH) == PedestrianWarning
    ensures p.cls == "dog" && p.bbox.h != 0.0 && JsRound(canvasH / p.bbox.h * 2.0) < 40
            ==> React(p, canvasH) == DangerWarning
  {
  }


  datatype Colour = Red | Amber | Green

  /** `updateDistanceIndicator`: colour and bar width for a distance in
      metres. */
  function Indicator(dist: int): (r: (Colour, real))
    ensures dist < 10 <==> r == (Red, 20.0)
    ensures 10 <= dist < 20 <==> r == (Amber, 50.0)
    ensures dist >= 20 ==> r.0 == Green && r.1 == MinR(100.0, dist as real / 30.0 * 100.0)
    ensures 0.0 < r.1 <= 100.0
  {
    if dist < 10 then (Red, 20.0)
    else if dist < 20 then (Amber, 50.0)
    else (Green, MinR(100.0, dist as real / 30.0 * 100.0))
  }

  /** The bar after a detection run: the indicator for the front distance,
      or a full green bar when nothing is ahead. */
  function FrontIndicator(front: int): (r: (Colour, real))
    ensures front >= NO_FRONT ==> r == (Green, 100.0)
    ensures front < NO_FRONT ==> r == Indicator(front)
  {
    if front < NO_FRONT then Indicator(front) else (Green, 100.0)
  }

  /** Nearer never looks safer: the bar's colour does not improve as the
      distance falls. */
  lemma IndicatorOrdered(d: int, d': int)
    requires d <= d'
    ensures Indicator(d).0 == Green ==> Indicator(d').0 == Green
    ensures Indicator(d').0 == Red ==> Indicator(d).0 == Red
  {
  }

  // ---------------------------------------------------------------------
  // Speed

  /** `Math.round(speed * 3.6)`: metres per second to km/h. */
  function SpeedKmh(metresPerSecond: real): int {
    JsRound(metresPerSecond * 3.6)
  }

  /** Colour of the speed read-out, and whether an over-speed alert is added. */
  function SpeedColour(speed: int, limit: int): (r: (Colour, bool))
    ensures r.1 <==> speed > limit
    ensures r.0 == Red <==> speed > limit
    ensures r.0 == Amber <==> limit - 10 < speed <= limit
    ensures r.0 == Green <==> speed <= limit - 10
  {
    if speed > limit then (Red, true)
    else if speed > limit - 10 then (Amber, false)
    else (Green, false)
  }

  /** The initial speed limit, km/h. */
  const DEFAULT_LIMIT: int := 50

  /** The limits each reader's regular expression accepts. */
  predicate SignLimit(n: int) { n in {20, 30, 40, 50, 60, 70, 80, 90, 100, 110, 120} }
  predicate RegionLimit(n: int) { n in {30, 40, 50, 60, 70, 80, 90, 100, 110, 120} }

  /** A speed number read by OCR (`None` when the text held none): a new
      number replaces the limit and announces it with a warning alert. */
  function UpdateLimit(limit: int, read: Option<int>): (r: (int, bool))
    ensures r.1 <==> read.Some? && read.value != limit
    ensures r.0 == (if read.Some? then read.value else limit)
  {
    match read
    case Some(n) => if n != limit then (n, true) else (limit, false)
    case None => (limit, false)
  }

  /** Reading the same sign again announces nothing; a limit only ever
      comes from what was read. */
  lemma UpdateLimitSettles(limit: int, n: int, readings: seq<Option<int>>)
    ensures UpdateLimit(UpdateLimit(limit, Some(n)).0, Some(n)) == (n, false)
    ensures SignLimit(limit) && (forall k :: 0 <= k < |readings| && readings[k].Some? ==> SignLimit(readings[k].value))
            ==> SignLimit(Limits(limit, readings))
  {
    LimitsFromReads(limit, readings);
  }

  /** The limit after a series of readings. */
  function Limits(limit: int, readings: seq<Option<int>>): int
    decreases |readings|
  {
    if |readings| == 0 then limit else Limits(UpdateLimit(limit, readings[0]).0, readings[1..])
  }

  lemma {:induction false} LimitsFromReads(limit: int, readings: seq<Option<int>>)
    ensures Limits(limit, readings) == limit
         || exists k :: 0 <= k < |readings| && readings[k] == Some(Limits(limit, readings))
    decreases |readings|
  {
    if |readings| > 0 {
      LimitsFromReads(UpdateLimit(limit, readings[0]).0, readings[1..]);
      if Limits(limit, readings) != UpdateLimit(limit, readings[0]).0 {
        var k :| 0 <= k < |readings[1..]| && readings[1..][k] == Some(Limits(limit, readings));
        assert readings[k + 1] == readings[1..][k];
      }
    }
  }

  /** The OCR throttle: a run starts only with the engine loaded, not busy
      (for the sign reader) and at least two seconds after the last start;
      starting records the time. */
  const OCR_INTERVAL: int := 2000

  function OcrGate(ready: bool, busy: bool, last: int, now: int): (r: (bool, int))
    ensures r.0 <==> ready && !busy && now - last >= OCR_INTERVAL
    ensures r.0 ==> r.1 == now
    ensures !r.0 ==> r.1 == last
  {
    if ready && !busy && now - last >= OCR_INTERVAL then (true, now) else (false, last)
  }

  /** One attempt to start a read: the engine's state and the clock. */
  datatype OcrCall = OcrCall(ready: bool, busy: bool, now: int)

  /** The start times of a run of attempts through the throttle, beginning
      from the last start `last`. */
  function OcrStarts(last: int, calls: seq<OcrCall>): seq<int>
    decreases |calls|
  {
    if |calls| == 0 then []
    else
      var gate := OcrGate(calls[0].ready, calls[0].busy, last, calls[0].now);
      (if gate.0 then [calls[0].now] else []) + OcrStarts(gate.1, calls[1..])
  }

  /** However the clock behaves, reads start at least two seconds after the
      previous start, and the first one two seconds after `last`. */
  lemma {:induction false} OcrStartsSpaced(last: int, calls: seq<OcrCall>)
    ensures |OcrStarts(last, calls)| > 0 ==> OcrStarts(last, calls)[0] - last >= OCR_INTERVAL
    ensures forall k :: 0 < k < |OcrStarts(last, calls)| ==>
              OcrStarts(last, calls)[k] - OcrStarts(last, calls)[k - 1] >= OCR_INTERVAL
    decreases |calls|
  {
    if |calls| > 0 {
      var gate := OcrGate(calls[0].ready, calls[0].busy, last, calls[0].now);
      var rest := OcrStarts(gate.1, calls[1..]);
      OcrStartsSpaced(gate.1, calls[1..]);
      var starts := OcrStarts(last, calls);
      if gate.0 {
        assert starts == [calls[0].now] + rest;
        forall k | 0 < k < |starts| ensures starts[k] - starts[k - 1] >= OCR_INTERVAL {
          if k > 1 {
            assert starts[k] == rest[k - 1] && starts[k - 1] == rest[k - 2];
          }
        }
      } else {
        assert starts == rest;
      }
    }
  }

  // ---------------------------------------------------------------------
  // Sign regions

  /** A candidate sign region in image pixels. */
  datatype Region = Region(x: real, y: real, w: real, h: real)

  function Abs(a: real): real { if a < 0.0 then -a else a }

  /** The page's overlap test, measured from the kept region `r`. */
  predicate Overlaps(r: Region, r2: Region) {
    Abs(r.x - r2.x) < r.w && Abs(r.y - r2.y) < r.h
  }

  /** The greedy pass of `mergeOverlappingRegions`: keep the first region,
      mark every later one it overlaps as used, and continue with the rest. */
  function Greedy(rs: seq<Region>): (r: seq<Region>)
    ensures |r| <= |rs|
    ensures |rs| > 0 ==> |r| > 0 && r[0] == rs[0]
    decreases |rs|
  {
    if |rs| == 0 then []
    else [rs[0]] + Greedy(Filter(rs[1..], (x: Region) => !Overlaps(rs[0], x)))
  }

  const MAX_REGIONS: nat := 3

  /** `mergeOverlappingRegions`: at most three regions to read. */
  function MergeRegions(rs: seq<Region>): (r: seq<Region>)
    ensures |rs| <= 1 ==> r == rs
    ensures |rs| > 1 ==> |r| <= MAX_REGIONS && |r| <= |Greedy(rs)| && r == Greedy(rs)[..|r|]
    ensures |rs| > 1 ==> |r| == if |Greedy(rs)| <= MAX_REGIONS then |Greedy(rs)| else MAX_REGIONS
    ensures |rs| > 0 ==> |r| > 0 && r[0] == rs[0]
  {
    if |rs| <= 1 then rs
    else
      var g := Greedy(rs);
      if |g| <= MAX_REGIONS then g else g[..MAX_REGIONS]
  }

  /** The greedy pass keeps regions in their original order; no kept region
      overlaps a later kept one; and every region it drops is overlapped by
      a region it kept before it. */
  lemma {:induction false} GreedyFacts(rs: seq<Region>)
    ensures Subseq(Greedy(rs), rs)
    ensures forall i, j :: 0 <= i < j < |Greedy(rs)| ==> !Overlaps(Greedy(rs)[i], Greedy(rs)[j])
    ensures forall k :: 0 <= k < |rs| ==> rs[k] in Greedy(rs) || exists y :: y in Greedy(rs) && Overlaps(y, rs[k])
    decreases |rs|
  {
    if |rs| > 0 {
      var f := (x: Region) => !Overlaps(rs[0], x);
      var rest := Filter(rs[1..], f);
      var g := Greedy(rs);
      GreedyFacts(rest);
      assert g == [rs[0]] + Greedy(rest);
      assert g[1..] == Greedy(rest);
      FilterSubseq(rs[1..], f);
      SubseqTrans(Greedy(rest), rest, rs[1..]);
      SubseqMembers(Greedy(rest), rest);
      forall i, j | 0 <= i < j < |g| ensures !Overlaps(g[i], g[j]) {
        if i == 0 {
          assert g[j] == Greedy(rest)[j - 1];
          assert g[j] in rest;
        } else {
          assert g[i] == Greedy(rest)[i - 1] && g[j] == Greedy(rest)[j - 1];
        }
      }
      forall k | 0 <= k < |rs| ensures rs[k] in g || exists y :: y in g && Overlaps(y, rs[k]) {
        if k == 0 {
          assert g[0] == rs[0];
        } else if f(rs[k]) {
          assert rs[1..][k - 1] == rs[k];
          assert rs[k] in rest;
          var k' :| 0 <= k' < |rest| && rest[k'] == rs[k];
          if rs[k] !in Greedy(rest) {
            var y :| y in Greedy(rest) && Overlaps(y, rest[k']);
            assert y in g;
          } else {
            assert rs[k] in g;
          }
        } else {
          assert rs[0] in g && Overlaps(rs[0], rs[k]);
        }
      }
    }
  }

  /** The regions handed to OCR are input regions in their input order, and
      none of them overlaps a later one. */
  lemma MergeRegionsFacts(rs: seq<Region>)
    ensures Subseq(MergeRegions(rs), rs)
    ensures forall k :: 0 <= k < |MergeRegions(rs)| ==> MergeRegions(rs)[k] in rs
    ensures |rs| > 1 ==> forall i, j :: 0 <= i < j < |MergeRegions(rs)| ==> !Overlaps(MergeRegions(rs)[i], MergeRegions(rs)[j])
  {
    var m := MergeRegions(rs);
    if |rs| <= 1 {
      PrefixSubseq(rs, |rs|);
      assert rs[..|rs|] == rs;
    } else {
      var g := Greedy(rs);
      GreedyFacts(rs);
      PrefixSubseq(g, |m|);
      SubseqTrans(m, g, rs);
      forall i, j | 0 <= i < j < |m| ensures !Overlaps(m[i], m[j]) {
        assert m[i] == g[i] && m[j] == g[j];
      }
    }
    SubseqMembers(m, rs);
  }

  // ---------------------------------------------------------------------
  // OCR image threshold

  newtype byte = x: int | 0 <= x < 256

  /** The byte at index `i` after `enhanceForOCR`. Bytes come in RGBA groups;
      the colour bytes of a pixel become 255 when the mean of its red, green
      and blue exceeds 128 and 0 otherwise; alpha is untouched. A trailing
      group without all three colour bytes has an undefined mean, which
      compares false, so its bytes become 0. */
  function Enhanced(data: seq<byte>, i: nat): (r: byte)
    requires i < |data|
    ensures i % 4 == 3 ==> r == data[i]
    ensures i % 4 != 3 ==> r == 0 || r == 255
  {
    var start := i - i % 4;
    if i % 4 == 3 then data[i]
    else if start + 2 < |data| && (data[start] as int + data[start + 1] as int + data[start + 2] as int) > 384 then 255
    else 0
  }

  /** One group of up to four bytes, thresholded. */
  function EnhanceGroup(g: seq<byte>): (r: seq<byte>)
    requires |g| <= 4
    ensures |r| == |g|
  {
    if |g| >= 3 then
      var v: byte := if (g[0] as int + g[1] as int + g[2] as int) > 384 then 255 else 0;
      [v, v, v] + g[3..]
    else seq(|g|, _ => 0)
  }

  /** `enhanceForOCR` over the canvas's byte array. */
  method EnhanceForOcr(data: seq<byte>) returns (out: seq<byte>)
    ensures |out| == |data|
    ensures forall i :: 0 <= i < |data| ==> out[i] == Enhanced(data, i)
  {
    out := [];
    var i := 0;
    while i < |data|
      invariant i <= |data| && |out| == i
      invariant i % 4 == 0 || i == |data|
      invariant forall k :: 0 <= k < i ==> out[k] == Enhanced(data, k)
    {
      var next := if i + 4 <= |data| then i + 4 else |data|;
      var g := EnhanceGroup(data[i..next]);
      forall k | i <= k < next ensures g[k - i] == Enhanced(data, k) {
        assert k % 4 == k - i;
        assert k - k % 4 == i;
      }
      out := out + g;
      i := next;
    }
  }

  /** The whole thresholded array. */
  function EnhancedAll(data: seq<byte>): (r: seq<byte>)
    ensures |r| == |data|
  {
    seq(|data|, i requires 0 <= i < |data| => Enhanced(data, i))
  }

  /** The colour bytes of one pixel, as a group. */
  lemma GroupIndices(i: nat)
    ensures var start := i - i % 4;
      start % 4 == 0 && (start + 1) % 4 == 1 && (start + 2) % 4 == 2
      && (start + 1) - (start + 1) % 4 == start && (start + 2) - (start + 2) % 4 == start
  {
    var q := i / 4;
    assert i - i % 4 == 4 * q;
  }

  /** Thresholding one byte of an already thresholded image changes nothing. */
  lemma EnhanceStable(data: seq<byte>, i: nat)
    requires i < |data|
    ensures Enhanced(EnhancedAll(data), i) == EnhancedAll(data)[i]
  {
    var once := EnhancedAll(data);
    var start := i - i % 4;
    if i % 4 != 3 && start + 2 < |data| {
      GroupIndices(i);
      var v := once[start];
      assert once[start + 1] == v && once[start + 2] == v;
      assert v == 0 || v == 255;
    }
  }

  /** Thresholding a thresholded image changes nothing. */
  lemma EnhanceIdempotent(data: seq<byte>)
    ensures EnhancedAll(EnhancedAll(data)) == EnhancedAll(data)
  {
    forall i | 0 <= i < |data| ensures EnhancedAll(EnhancedAll(data))[i] == EnhancedAll(data)[i] {
      EnhanceStable(data, i);
    }
  }
}
