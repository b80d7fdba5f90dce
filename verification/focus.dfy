/** The scanner HUD (game_logic.js): detected objects under the reticle are
    "scanned" and, 1.5 s later, identified; beside it the hazard gauge, the
    voice-bar visualiser, the battery read-out and the boot progress bar.

    The page compares detections by object reference. Every call of the
    detector builds fresh prediction objects, so here a detection carries an
    opaque id chosen by the caller: equal ids mean the same object. There is
    no tracking, smoothing or expiry of detections in the code, and none here.
    The 1.5 s `setTimeout` becomes a list of pending reveals that `Advance`
    delivers once their due time has come. */
module Focus {
  import opened Base
  import Vision

  /** Predictions scoring at or below this are discarded. */
  const MIN_SCORE: real := 0.4
  /** Delay between the start of a scan and the reveal, in milliseconds. */
  const REVEAL_DELAY: int := 1500

  type ObjId = nat

  /** One prediction object of one detector run. */
  datatype Detection = Detection(id: ObjId, pred: Vision.Prediction)

  /** `detectedObjects = predictions.filter(p => p.score > 0.4)`. */
  function Kept(ds: seq<Detection>): (r: seq<Detection>)
    ensures forall k :: 0 <= k < |r| ==> r[k] in ds && r[k].pred.score > MIN_SCORE
    ensures forall k :: 0 <= k < |ds| && ds[k].pred.score > MIN_SCORE ==> ds[k] in r
    ensures Subseq(r, ds)
  {
    var keep := (d: Detection) => d.pred.score > MIN_SCORE;
    FilterSubseq(ds, keep);
    Filter(ds, keep)
  }

  /** Every kept detection is kept as many times as the detector reported
      it. */
  lemma KeptCounts(ds: seq<Detection>)
    ensures forall d :: multiset(Kept(ds))[d] == if d.pred.score > MIN_SCORE then multiset(ds)[d] else 0
  {
    FilterCounts(ds, (d: Detection) => d.pred.score > MIN_SCORE);
  }

  /** The screen centre lies strictly inside the detection's screen box. */
  predicate UnderReticle(view: Vision.Viewport, d: Detection)
    requires view.Valid()
  {
    var b := view.ToScreen(d.pred.bbox);
    b.x < view.CentreX() < b.x + b.w && b.y < view.CentreY() < b.y + b.h
  }

  /** The loop in `checkReticleFocus`: the first detection under the reticle. */
  function Focused(view: Vision.Viewport, ds: seq<Detection>): (r: Option<ObjId>)
    requires view.Valid()
    ensures r.Some? <==> exists k :: 0 <= k < |ds| && UnderReticle(view, ds[k])
    ensures r.Some? ==> exists k :: 0 <= k < |ds| && UnderReticle(view, ds[k]) && ds[k].id == r.value
                          && forall j :: 0 <= j < k ==> !UnderReticle(view, ds[j])
  {
    match FirstIndex(ds, (d: Detection) requires view.Valid() => UnderReticle(view, d))
    case None => None
    case Some(k) => Some(ds[k].id)
  }

  /** A reveal scheduled by `startScan` for object `obj`, due at `due`. */
  datatype Reveal = Reveal(obj: ObjId, due: int)

  /** `currentLockedObj`, `isScanning`, `scanComplete`, and the reveals still
      waiting on their timer, oldest first. */
  datatype Scan = Scan(locked: Option<ObjId>, scanning: bool, complete: bool, pending: seq<Reveal>)

  const Start: Scan := Scan(None, false, false, [])

  /** What every reachable scan state satisfies: a scan runs exactly while an
      object is locked, a completed scan is one that ran, and an object that
      is locked but not yet identified still has its reveal waiting. */
  ghost predicate Inv(st: Scan) {
    && (st.scanning <==> st.locked.Some?)
    && (st.complete ==> st.scanning)
    && (st.locked.Some? && !st.complete ==> exists k :: 0 <= k < |st.pending| && st.pending[k].obj == st.locked.value)
  }

  /** `startScan`: mark the scan running and schedule the reveal. */
  function StartScan(st: Scan, obj: ObjId, now: int): (r: Scan)
    ensures r.scanning && r.locked == st.locked && r.complete == st.complete
    ensures r.pending == st.pending + [Reveal(obj, now + REVEAL_DELAY)]
  {
    st.(scanning := true, pending := st.pending + [Reveal(obj, now + REVEAL_DELAY)])
  }

  /** The tail of `checkReticleFocus`, given the object it found. */
  function CheckFocus(st: Scan, focus: Option<ObjId>, now: int): (r: Scan)
    ensures focus == st.locked ==> r == st
    ensures focus != st.locked ==> r.locked == focus && !r.complete
    ensures focus != st.locked ==> (r.scanning <==> focus.Some?)
    ensures focus != st.locked && focus.Some? ==> r.pending == st.pending + [Reveal(focus.value, now + REVEAL_DELAY)]
    ensures focus != st.locked && focus.None? ==> r.pending == st.pending
    ensures Inv(st) ==> Inv(r)
  {
    if focus == st.locked then st
    else
      var reset := st.(locked := focus, scanning := false, complete := false);
      match focus
      case Some(obj) =>
        var r := StartScan(reset, obj, now);
        assert r.pending[|r.pending| - 1].obj == obj;
        r
      case None => reset
  }

  /** One run of `detectLoop` on a ready video: filter the predictions, find
      the one under the reticle, update the scan. Returns the new
      `detectedObjects` and scan state. */
  function Frame(st: Scan, view: Vision.Viewport, ds: seq<Detection>, now: int): (r: (seq<Detection>, Scan))
    requires view.Valid()
    ensures r.0 == Kept(ds)
    ensures r.1 == CheckFocus(st, Focused(view, Kept(ds)), now)
    ensures Inv(st) ==> Inv(r.1)
  {
    var kept := Kept(ds);
    (kept, CheckFocus(st, Focused(view, kept), now))
  }

  /** The reveal callback: the scan completes only if the scanned object is
      still the locked one. */
  function FireReveal(st: Scan, obj: ObjId): (r: Scan)
    ensures r.complete <==> st.complete || st.locked == Some(obj)
    ensures r.locked == st.locked && r.scanning == st.scanning && r.pending == st.pending
  {
    if st.locked == Some(obj) then st.(complete := true) else st
  }

  /** The page's timers at time `now`: every scheduled reveal that has come
      due fires, wherever it sits in the queue, since each `setTimeout` runs
      on its own. A reveal looks only at the locked object, which no reveal
      changes, so the order in which due reveals fire does not matter. */
  function Advance(st: Scan, now: int): (r: Scan)
    ensures r.locked == st.locked && r.scanning == st.scanning
    ensures st.complete ==> r.complete
    ensures |r.pending| <= |st.pending| && Subseq(r.pending, st.pending)
    ensures forall k :: 0 <= k < |r.pending| ==> r.pending[k].due > now && r.pending[k] in st.pending
    ensures forall k :: 0 <= k < |st.pending| && st.pending[k].due > now ==> st.pending[k] in r.pending
    decreases |st.pending|
  {
    if |st.pending| == 0 then st
    else
      var head := st.pending[0];
      var rest := Advance(st.(pending := st.pending[1..]), now);
      var r := if head.due <= now then FireReveal(rest, head.obj) else rest.(pending := [head] + rest.pending);
      assert head.due > now ==> r.pending[1..] == rest.pending;
      SubseqMembers(r.pending, st.pending);
      r
  }

  /** One step of `Advance`: the scan is complete afterwards exactly when the
      rest of the queue completes it, or the first reveal is due and still
      for the locked object. */
  lemma AdvanceHead(st: Scan, now: int)
    requires |st.pending| > 0
    ensures Advance(st, now).complete <==>
      || Advance(st.(pending := st.pending[1..]), now).complete
      || (st.pending[0].due <= now && st.locked == Some(st.pending[0].obj))
  {
  }

  /** A scan only completes through a reveal for the object still locked
      that has come due. */
  lemma {:induction false} CompletionNeedsDueReveal(st: Scan, now: int)
    requires !st.complete && Advance(st, now).complete
    ensures st.locked.Some?
    ensures exists k :: 0 <= k < |st.pending| && st.pending[k].obj == st.locked.value && st.pending[k].due <= now
    decreases |st.pending|
  {
    var tail := st.(pending := st.pending[1..]);
    var rest := Advance(tail, now);
    AdvanceHead(st, now);
    if rest.complete {
      CompletionNeedsDueReveal(tail, now);
      var k :| 0 <= k < |tail.pending| && tail.pending[k].obj == tail.locked.value && tail.pending[k].due <= now;
      assert st.pending[k + 1] == tail.pending[k];
    } else {
      assert st.pending[0].obj == st.locked.value && st.pending[0].due <= now;
    }
  }

  /** A due reveal for the locked object completes the scan, whatever else
      is queued before or after it. */
  lemma {:induction false} DueRevealCompletes(st: Scan, now: int, k: nat)
    requires k < |st.pending| && st.pending[k].due <= now
    requires st.locked == Some(st.pending[k].obj)
    ensures Advance(st, now).complete
    decreases |st.pending|
  {
    AdvanceHead(st, now);
    if k > 0 {
      var tail := st.(pending := st.pending[1..]);
      assert tail.pending[k - 1] == st.pending[k];
      DueRevealCompletes(tail, now, k - 1);
    }
  }

  /** Once every scheduled reveal has come due, the locked object (if any)
      has been identified. */
  lemma AllDueRevealsComplete(st: Scan, now: int)
    requires Inv(st) && st.locked.Some?
    requires forall k :: 0 <= k < |st.pending| ==> st.pending[k].due <= now
    ensures Advance(st, now).complete
  {
    if !st.complete {
      var k :| 0 <= k < |st.pending| && st.pending[k].obj == st.locked.value;
      DueRevealCompletes(st, now, k);
    }
  }

  /** Delivering timers keeps the scan invariant. */
  lemma AdvanceKeepsInv(st: Scan, now: int)
    requires Inv(st)
    ensures Inv(Advance(st, now))
  {
    var r := Advance(st, now);
    if r.complete && !st.complete {
      CompletionNeedsDueReveal(st, now);
    }
    if r.locked.Some? && !r.complete {
      var k :| 0 <= k < |st.pending| && st.pending[k].obj == st.locked.value;
      if st.pending[k].due <= now {
        DueRevealCompletes(st, now, k);
      }
      assert st.pending[k] in r.pending;
    }
  }

  /** The detector hands out fresh objects on every run, so a second run
      that still sees something under the reticle re-locks onto a new object
      and the earlier reveal is wasted: until the new object's own reveal
      comes due, the scan does not complete. */
  lemma FreshFrameDelaysReveal(st: Scan, view: Vision.Viewport, ds: seq<Detection>, t: int, now: int)
    requires view.Valid()
    requires Focused(view, Kept(ds)).Some? && Focused(view, Kept(ds)) != st.locked
    requires forall k :: 0 <= k < |st.pending| ==> st.pending[k].obj != Focused(view, Kept(ds)).value
    requires now < t + REVEAL_DELAY
    ensures !Advance(Frame(st, view, ds, t).1, now).complete
  {
    var s' := Frame(st, view, ds, t).1;
    if Advance(s', now).complete {
      CompletionNeedsDueReveal(s', now);
    }
  }

  // ---------------------------------------------------------------------
  // Hazard gauge

  datatype HazardLevel = Safe | Caution | Danger

  /** `updateHazardLevel`: the EMF factor (0–100), the light factor (at
      most 100) and their 70/30 blend, capped at 100. */
  function HazardScore(emf: int, lux: real): (r: real)
    ensures r <= 100.0
    ensures lux >= 0.0 ==> r >= 0.0
  {
    var emfFactor := Clamp(0.0, 100.0, (emf - 30) as real * 1.5);
    var lightFactor := MinR(100.0, lux / 100.0);
    MinR(100.0, emfFactor * 0.7 + lightFactor * 0.3)
  }

  function Classify(score: real): (r: HazardLevel)
    ensures r == Safe <==> score < 30.0
    ensures r == Caution <==> 30.0 <= score < 70.0
    ensures r == Danger <==> score >= 70.0
  {
    if score < 30.0 then Safe else if score < 70.0 then Caution else Danger
  }

  /** More field strength or more light never lowers the hazard score. At
      the simulated EMF readings (40–55), with no light or with the
      simulated 200–300 lux, the page shows SAFE. */
  lemma HazardMonotone(emf: int, lux: real, emf': int, lux': real)
    requires emf <= emf' && lux <= lux'
    ensures HazardScore(emf, lux) <= HazardScore(emf', lux')
    ensures 40 <= emf <= 55 && lux == 0.0 ==> Classify(HazardScore(emf, lux)) == Safe
    ensures 40 <= emf <= 55 && 200.0 <= lux <= 300.0 ==> Classify(HazardScore(emf, lux)) == Safe
  {
  }

  // ---------------------------------------------------------------------
  // Voice visualiser

  datatype BarColour = Hot | Warm | Cool

  /** The frequency bin shown by bar `i` of `bars`:
      `Math.floor(i * (bufferLength / bars))`. */
  function BinIndex(i: nat, bins: nat, bars: nat): (r: int)
    requires i < bars
    ensures 0 <= r < bins || bins == 0
    ensures i == 0 ==> r == 0
  {
    ((i as real) * (bins as real / bars as real)).Floor
  }

  /** A bar's height in pixels from the byte level `val` (0–255) and the
      value of `Math.pow(val / 255, 1.5)`, which the model takes as given. */
  function BarHeight(val: nat, pow: real): (r: real)
    requires val <= 255
    ensures 2.0 <= r <= 30.0
    ensures var raw := val as real / 255.0 * 10.0 + pow * 20.0; 2.0 <= raw <= 30.0 ==> r == raw
    ensures val == 0 && pow == 0.0 ==> r == 2.0
  {
    Clamp(2.0, 30.0, val as real / 255.0 * 10.0 + pow * 20.0)
  }

  function BarColourOf(val: nat): (r: BarColour)
    ensures r == Hot <==> val > 150
    ensures r == Warm <==> 80 < val <= 150
    ensures r == Cool <==> val <= 80
  {
    if val > 150 then Hot else if val > 80 then Warm else Cool
  }

  // ---------------------------------------------------------------------
  // Battery and boot

  datatype BatteryColour = Red | Yellow | Cyan

  /** `Math.round(battery.level * 100)`: a charge fraction as a percentage. */
  function BatteryLevel(fraction: real): (r: int)
    ensures 0.0 <= fraction <= 1.0 ==> 0 <= r <= 100
  {
    JsRound(fraction * 100.0)
  }

  function BatteryColourOf(level: int): (r: BatteryColour)
    ensures r == Red <==> level < 20
    ensures r == Yellow <==> 20 <= level < 50
    ensures r == Cyan <==> level >= 50
  {
    if level < 20 then Red else if level < 50 then Yellow else Cyan
  }

  /** The width of the boot bar, in percent, after message `step` of `len`. */
  function BootProgress(step: nat, len: nat): (r: real)
    requires step < len
    ensures 0.0 < r <= 100.0
    ensures r * len as real == (step + 1) as real * 100.0
  {
    (step + 1) as real / len as real * 100.0
  }

  /** The bar grows with every message and is full at the last one. */
  lemma BootProgressRises(step: nat, step': nat, len: nat)
    requires step < step' < len
    ensures BootProgress(step, len) < BootProgress(step', len)
    ensures BootProgress(len - 1, len) == 100.0
  {
    var a := BootProgress(step, len);
    var b := BootProgress(step', len);
    var n := len as real;
    var gap := (step' - step) as real * 100.0;
    assert (b - a) * n == gap;
    assert b - a == gap / n;
    assert gap / n > 0.0;
  }
}
