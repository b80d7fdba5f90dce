/** The room-calibration wizard (calibration.js): four steps, one per wall
    (front, right, back, left); each step either accepts a typed distance of
    0.5 to 20 metres or is skipped; after the fourth step the mean of the
    measured walls and a room-size class are computed and the room is marked
    calibrated. Dialogs, vibration, logging and storage are not modelled;
    storage reads and writes appear as plain values. */
module Calibration {
  import opened Base
  import Vision

  const STEPS: nat := 4
  const MIN_WALL: real := 0.5
  const MAX_WALL: real := 20.0
  const LIVE_MIN: real := 0.5
  const LIVE_MAX: real := 15.0
  const REFERENCE_MIN_SCORE: real := 0.5

  datatype Direction = Front | Right | Back | Left

  /** `directions`, in step order. */
  const Directions: seq<Direction> := [Front, Right, Back, Left]

  /** `roomData.walls`; `None` is a wall not (or not yet) measured. */
  datatype Walls = Walls(front: Option<real>, right: Option<real>, back: Option<real>, left: Option<real>)
  {
    function Get(d: Direction): Option<real> {
      match d
      case Front => front
      case Right => right
      case Back => back
      case Left => left
    }

    function Set(d: Direction, v: Option<real>): (r: Walls)
      ensures r.Get(d) == v
      ensures forall e: Direction :: e != d ==> r.Get(e) == Get(e)
    {
      match d
      case Front => this.(front := v)
      case Right => this.(right := v)
      case Back => this.(back := v)
      case Left => this.(left := v)
    }

    /** `Object.values(walls)`: in declaration order. */
    function Values(): (r: seq<Option<real>>)
      ensures |r| == |Directions|
      ensures forall i :: 0 <= i < |r| ==> r[i] == Get(Directions[i])
    {
      [front, right, back, left]
    }
  }

  const NoWalls: Walls := Walls(None, None, None, None)

  /** Room sizes: the source's Hebrew labels for small, medium and large, and
      the initial 'unknown'. */
  datatype RoomSize = Unknown | Small | Medium | Large

  /** `roomData`; `timestamp` is the completion time in milliseconds. */
  datatype RoomData = RoomData(calibrated: bool, timestamp: Option<int>, walls: Walls,
                               avgDistance: real, roomSize: RoomSize)

  const EmptyRoom: RoomData := RoomData(false, None, NoWalls, 0.0, Unknown)

  /** The wizard's state: `currentStep` and `roomData`. */
  datatype Wizard = Wizard(step: nat, room: RoomData)

  /** What a button press did: accepted, refused by the input check (the
      alert), or thrown a TypeError because `directions[currentStep]` is
      undefined once all four steps are done. */
  datatype Outcome = Accepted | Rejected | Thrown

  // ---------------------------------------------------------------------
  // Statistics

  /** Present values of a list of optional readings, in order. */
  function Present(xs: seq<Option<real>>): (r: seq<real>)
    ensures |r| <= |xs|
    ensures forall v :: v in r <==> Some(v) in xs
  {
    if |xs| == 0 then []
    else (if xs[0].Some? then [xs[0].value] else []) + Present(xs[1..])
  }

  /** Each measured value is kept as many times as walls hold it. */
  lemma {:induction false} PresentCounts(xs: seq<Option<real>>)
    ensures forall v :: multiset(Present(xs))[v] == multiset(xs)[Some(v)]
    decreases |xs|
  {
    if |xs| > 0 {
      PresentCounts(xs[1..]);
      assert xs == [xs[0]] + xs[1..];
    }
  }

  /** The mean of the present readings (the non-null walls), or 0 when none is
      present. */
  function Mean(xs: seq<Option<real>>): real
  {
    Average(Present(xs))
  }

  /** The room-size thresholds of `showCompletion`. */
  function Classify(avg: real): (r: RoomSize)
    ensures r != Unknown
    ensures r == Small <==> avg < 2.0
    ensures r == Medium <==> 2.0 <= avg < 4.0
    ensures r == Large <==> avg >= 4.0
  {
    if avg < 2.0 then Small else if avg < 4.0 then Medium else Large
  }

  /** `showCompletion`: statistics over the walls; the room becomes
      calibrated and is stamped with the time. */
  function Complete(room: RoomData, now: int): (r: RoomData)
    ensures r.calibrated && r.timestamp == Some(now)
    ensures r.walls == room.walls
    ensures r.avgDistance == Mean(room.walls.Values())
    ensures r.roomSize == Classify(r.avgDistance)
  {
    var avg := Mean(room.walls.Values());
    room.(avgDistance := avg, roomSize := Classify(avg), calibrated := true, timestamp := Some(now))
  }

  // ---------------------------------------------------------------------
  // The screen

  datatype Dot = Done | Active | Idle

  /** What `updateUI` shows: the completion screen, or the current direction
      with the progress bar (percent) and the four step dots. */
  datatype Screen = Completion | StepScreen(direction: Direction, progress: real, dots: seq<Dot>)

  function ScreenOf(step: nat): (r: Screen)
    ensures r.Completion? <==> step >= STEPS
    ensures r.StepScreen? ==> r.direction == Directions[step]
    ensures r.StepScreen? ==> r.progress * 4.0 == step as real * 100.0 && 0.0 <= r.progress < 100.0
    ensures r.StepScreen? ==> |r.dots| == STEPS
    ensures r.StepScreen? ==> forall i :: 0 <= i < |r.dots| ==>
              (r.dots[i] == Done <==> i < step) && (r.dots[i] == Active <==> i == step)
  {
    if step >= STEPS then Completion
    else
      var dots := seq(STEPS, i requires 0 <= i < STEPS => if i < step then Done else if i == step then Active else Idle);
      StepScreen(Directions[step], step as real / 4.0 * 100.0, dots)
  }

  /** `updateUI`'s effect on the state: past the last step it runs
      `showCompletion`, otherwise it only redraws. */
  function UpdateUI(w: Wizard, now: int): (r: Wizard)
    ensures r.step == w.step
    ensures w.step < STEPS ==> r == w
    ensures w.step >= STEPS ==> r.room == Complete(w.room, now)
  {
    if w.step >= STEPS then w.(room := Complete(w.room, now)) else w
  }

  // ---------------------------------------------------------------------
  // Buttons

  /** The input check of `confirmDistance`; `None` is a value that parsed
      to NaN. */
  predicate ValidDistance(input: Option<real>) {
    input.Some? && MIN_WALL <= input.value <= MAX_WALL
  }

  /** `confirmDistance`: validate, store in the current direction's wall,
      advance, redraw. */
  function ConfirmDistance(w: Wizard, input: Option<real>, now: int): (r: (Wizard, Outcome))
    ensures !ValidDistance(input) ==> r == (w, Rejected)
    ensures ValidDistance(input) && w.step >= STEPS ==> r == (w, Thrown)
    ensures ValidDistance(input) && w.step < STEPS ==>
      && r.1 == Accepted
      && r.0.step == w.step + 1
      && r.0.room.walls.Get(Directions[w.step]) == input
      && (forall d: Direction :: d != Directions[w.step] ==> r.0.room.walls.Get(d) == w.room.walls.Get(d))
      && (r.0.step < STEPS ==> r.0.room == w.room.(walls := r.0.room.walls))
      && (r.0.step == STEPS ==> r.0.room.calibrated)
  {
    if !ValidDistance(input) then (w, Rejected)
    else if w.step >= STEPS then (w, Thrown)
    else
      var next := Wizard(w.step + 1, w.room.(walls := w.room.walls.Set(Directions[w.step], input)));
      (UpdateUI(next, now), Accepted)
  }

  /** `skipStep`: mark the current wall as not measured and advance. */
  function SkipStep(w: Wizard, now: int): (r: (Wizard, Outcome))
    ensures w.step >= STEPS ==> r == (w, Thrown)
    ensures w.step < STEPS ==>
      && r.1 == Accepted
      && r.0.step == w.step + 1
      && r.0.room.walls.Get(Directions[w.step]).None?
      && (forall d: Direction :: d != Directions[w.step] ==> r.0.room.walls.Get(d) == w.room.walls.Get(d))
      && (r.0.step < STEPS ==> r.0.room == w.room.(walls := r.0.room.walls))
      && (r.0.step == STEPS ==> r.0.room.calibrated)
  {
    if w.step >= STEPS then (w, Thrown)
    else
      var next := Wizard(w.step + 1, w.room.(walls := w.room.walls.Set(Directions[w.step], None)));
      (UpdateUI(next, now), Accepted)
  }

  /** `resetCalibration`: back to the first step with an empty room. */
  function Reset(): (r: Wizard)
    ensures r.step == 0 && !r.room.calibrated && r.room.avgDistance == 0.0
    ensures forall d: Direction :: r.room.walls.Get(d).None?
    ensures ScreenOf(r.step) == StepScreen(Front, 0.0, [Active, Idle, Idle, Idle])
  {
    Wizard(0, EmptyRoom)
  }

  /** `loadCalibration`: stored data replaces the room only when it says it is
      calibrated; `None` is an absent or unparsable entry. */
  function Load(w: Wizard, stored: Option<RoomData>): (r: Wizard)
    ensures r.step == w.step
    ensures r.room == (if stored.Some? && stored.value.calibrated then stored.value else w.room)
  {
    match stored
    case Some(d) => if d.calibrated then w.(room := d) else w
    case None => w
  }

  // ---------------------------------------------------------------------
  // Live distance hint

  /** Reference objects and their real heights in metres. */
  function KnownHeight(cls: string): Option<real> {
    if cls == "person" then Some(1.7)
    else if cls == "door" then Some(2.0)
    else if cls == "chair" then Some(0.9)
    else if cls == "tv" then Some(0.6)
    else if cls == "laptop" then Some(0.3)
    else if cls == "bottle" then Some(0.25)
    else if cls == "cell phone" then Some(0.15)
    else None
  }

  predicate IsReference(p: Vision.Prediction) {
    KnownHeight(p.cls).Some? && p.score > REFERENCE_MIN_SCORE
  }

  /** The prediction the live estimate is taken from: the first reference
      object with a confident score. */
  function FirstReference(ps: seq<Vision.Prediction>): (r: Option<nat>)
    ensures r.Some? ==> r.value < |ps| && IsReference(ps[r.value])
    ensures r.Some? ==> forall j :: 0 <= j < r.value ==> !IsReference(ps[j])
    ensures r.None? ==> forall j :: 0 <= j < |ps| ==> !IsReference(ps[j])
  {
    FirstIndex(ps, IsReference)
  }

  /** The live estimate is kept within [0.5, 15] metres. */
  function LiveDistance(raw: real): (r: real)
    ensures LIVE_MIN <= r <= LIVE_MAX
    ensures LIVE_MIN <= raw <= LIVE_MAX ==> r == raw
  {
    Clamp(LIVE_MIN, LIVE_MAX, raw)
  }

  // ---------------------------------------------------------------------
  // Whole-run properties

  /** The four wall values after a run of the wizard are within the accepted
      range whenever they are present. */
  ghost predicate WallsInRange(ws: Walls) {
    forall d: Direction :: ws.Get(d).Some? ==> MIN_WALL <= ws.Get(d).value <= MAX_WALL
  }

  /** Both buttons keep every stored wall within the accepted range. */
  lemma ButtonsKeepWallsInRange(w: Wizard, input: Option<real>, now: int)
    requires WallsInRange(w.room.walls)
    ensures WallsInRange(ConfirmDistance(w, input, now).0.room.walls)
    ensures WallsInRange(SkipStep(w, now).0.room.walls)
  {
    if w.step < STEPS {
      var here := Directions[w.step];
      var c := ConfirmDistance(w, input, now).0.room.walls;
      forall d: Direction | c.Get(d).Some? ensures MIN_WALL <= c.Get(d).value <= MAX_WALL {
        if d != here {
          assert c.Get(d) == w.room.walls.Get(d);
        }
      }
      var s := SkipStep(w, now).0.room.walls;
      forall d: Direction | s.Get(d).Some? ensures MIN_WALL <= s.Get(d).value <= MAX_WALL {
        assert d != here;
        assert s.Get(d) == w.room.walls.Get(d);
      }
    }
  }

  /** The button that fills the last wall completes the room: its average,
      size, flag and timestamp are computed from the four walls as stored,
      and every other field of the room is kept. */
  lemma LastStepCompletes(w: Wizard, input: Option<real>, now: int)
    requires w.step == STEPS - 1
    ensures ValidDistance(input) ==> var r := ConfirmDistance(w, input, now).0;
      r.room == Complete(w.room.(walls := r.room.walls), now)
    ensures var r := SkipStep(w, now).0;
      r.room == Complete(w.room.(walls := r.room.walls), now)
  {
  }

  /** The average of a completed room whose walls came through the wizard is
      0 (nothing measured) or within [0.5, 20]. */
  lemma CompletedAverageInRange(room: RoomData, now: int)
    requires WallsInRange(room.walls)
    ensures var r := Complete(room, now);
      r.avgDistance == 0.0 || MIN_WALL <= r.avgDistance <= MAX_WALL
  {
    var xs := room.walls.Values();
    var ds := Present(xs);
    if |ds| > 0 {
      forall i | 0 <= i < |ds| ensures MIN_WALL <= ds[i] <= MAX_WALL {
        assert Some(ds[i]) in xs;
        var k :| 0 <= k < |xs| && xs[k] == Some(ds[i]);
        assert xs[k] == room.walls.Get(Directions[k]);
      }
      AverageWithin(ds, MIN_WALL, MAX_WALL);
    }
  }

  /** One button press: `Some(v)` confirms `v`, `None` skips. */
  function Press(w: Wizard, input: Option<real>, now: int): Wizard {
    if input.Some? then ConfirmDistance(w, input, now).0 else SkipStep(w, now).0
  }

  /** A valid press before the end fills the current wall with what was
      pressed, moves one step on, and leaves the other walls alone. */
  lemma PressFills(w: Wizard, input: Option<real>, now: int)
    requires w.step < STEPS
    requires input.None? || ValidDistance(input)
    ensures Press(w, input, now).step == w.step + 1
    ensures Press(w, input, now).room.walls.Get(Directions[w.step]) == input
    ensures forall i :: 0 <= i < STEPS && i != w.step ==>
      Press(w, input, now).room.walls.Get(Directions[i]) == w.room.walls.Get(Directions[i])
    ensures Press(w, input, now).step == STEPS ==> Press(w, input, now).room.calibrated
  {
  }

  /** A run of the wizard, one press per input. */
  function Run(w: Wizard, inputs: seq<Option<real>>, now: int): Wizard
    decreases |inputs|
  {
    if |inputs| == 0 then w else Run(Press(w, inputs[0], now), inputs[1..], now)
  }

  /** Pressing a button once per remaining step, each press either a valid
      distance or a skip, finishes the wizard with the pressed values stored
      in the remaining walls and the earlier walls untouched. */
  lemma {:induction false} RunToEnd(w: Wizard, inputs: seq<Option<real>>, now: int)
    requires w.step + |inputs| == STEPS && |inputs| > 0
    requires forall i :: 0 <= i < |inputs| ==> inputs[i].None? || ValidDistance(inputs[i])
    ensures var r := Run(w, inputs, now);
      && r.step == STEPS && r.room.calibrated
      && (forall i :: w.step <= i < STEPS ==> r.room.walls.Get(Directions[i]) == inputs[i - w.step])
      && (forall i :: 0 <= i < w.step ==> r.room.walls.Get(Directions[i]) == w.room.walls.Get(Directions[i]))
    decreases |inputs|
  {
    var next := Press(w, inputs[0], now);
    PressFills(w, inputs[0], now);
    if |inputs| > 1 {
      RunToEnd(next, inputs[1..], now);
      assert Run(w, inputs, now) == Run(next, inputs[1..], now);
      var r := Run(next, inputs[1..], now);
      forall i | w.step < i < STEPS ensures r.room.walls.Get(Directions[i]) == inputs[i - w.step] {
        assert inputs[1..][i - next.step] == inputs[i - w.step];
      }
    } else {
      assert Run(w, inputs, now) == next;
    }
  }

  /** Four presses of either button from a reset complete the calibration,
      with each wall holding what was entered for it. */
  lemma FourStepsComplete(inputs: seq<Option<real>>, now: int)
    requires |inputs| == STEPS
    requires forall i :: 0 <= i < |inputs| ==> inputs[i].None? || ValidDistance(inputs[i])
    ensures var w := Run(Reset(), inputs, now);
      w.step == STEPS && w.room.calibrated
      && forall i :: 0 <= i < STEPS ==> w.room.walls.Get(Directions[i]) == inputs[i]
  {
    RunToEnd(Reset(), inputs, now);
  }
}
