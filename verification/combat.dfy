/** The combat HUD (game_logic_v10.js): overlay "enemies" float over the
    camera picture; holding one under the reticle for 1.2 s fires at it, two
    hits destroy it. Alongside: the real-world reticle read-out (which
    detected object is in the crosshair and how far away it is), the
    radiation gauge, the spawn cap and the motion detector.

    The page's `isInAR` flag is never declared in that file; it appears here
    as an input. Time is an integer number of milliseconds passed in by the
    caller; screen geometry is exact `real` arithmetic. */
module Combat {
  import opened Base
  import Vision
  import Calibration

  const LOCK_TIME_TO_FIRE: int := 1200
  const MAX_ENEMIES: nat := 3
  const FULL_HEALTH: int := 100
  const DAMAGE: int := 50
  /** An enemy is lockable while its centre is closer than this to the reticle. */
  const LOCK_RADIUS: real := 100.0
  /** Detected objects count as "in the crosshair" with this much slack around their box. */
  const RETICLE_MARGIN: real := 100.0
  const MIN_SCORE: real := 0.35
  const MOTION_WINDOW: nat := 25
  const MOTION_THRESHOLD: real := 0.8

  // =====================================================================
  // Overlay enemies

  /** Enemies are DOM elements; the model names them by a distinct id. */
  type EnemyId = nat

  /** An enemy: its id, its on-screen rectangle (`getBoundingClientRect`)
      and `dataset.health` as `parseInt` reads it (`None`: missing or not a
      number). */
  datatype Enemy = Enemy(id: EnemyId, rect: Vision.BBox, health: Option<int>)

  ghost predicate DistinctIds(es: seq<Enemy>) {
    DistinctBy(es, (e: Enemy) => e.id)
  }

  /** No enemy of `es` carries `id`: a newly created element. */
  ghost predicate FreshId(es: seq<Enemy>, id: EnemyId) {
    forall k :: 0 <= k < |es| ==> es[k].id != id
  }

  /** The enemy's centre is strictly within `LOCK_RADIUS` of the reticle
      (`Math.sqrt(dx² + dy²) < 100`, compared here without the root). */
  predicate InLockRange(e: Enemy, cx: real, cy: real) {
    var dx := cx - (e.rect.x + e.rect.w / 2.0);
    var dy := cy - (e.rect.y + e.rect.h / 2.0);
    dx * dx + dy * dy < LOCK_RADIUS * LOCK_RADIUS
  }

  /** The range shown for a locked enemy: bigger on screen reads as closer,
      never nearer than 2. */
  function FakeDistance(width: real): (r: real)
    ensures r >= 2.0
    ensures width <= 130.0 ==> r == 15.0 - width / 10.0
    ensures width >= 130.0 ==> r == 2.0
  {
    MaxR(2.0, 15.0 - width / 10.0)
  }

  /** A lock: which enemy (by position in the list) and its shown range. */
  datatype Lock = Lock(index: nat, distance: real)

  /** `checkOverlayEnemyLock`: the first enemy, in list order, in lock range. */
  function FindLock(es: seq<Enemy>, cx: real, cy: real): (r: Option<Lock>)
    ensures r.Some? ==> r.value.index < |es| && InLockRange(es[r.value.index], cx, cy)
    ensures r.Some? ==> forall j :: 0 <= j < r.value.index ==> !InLockRange(es[j], cx, cy)
    ensures r.Some? ==> r.value.distance == FakeDistance(es[r.value.index].rect.w)
    ensures r.None? <==> forall j :: 0 <= j < |es| ==> !InLockRange(es[j], cx, cy)
  {
    match FirstIndex(es, (e: Enemy) => InLockRange(e, cx, cy))
    case None => None
    case Some(i) => Some(Lock(i, FakeDistance(es[i].rect.w)))
  }

  // ---------------------------------------------------------------------
  // Lock timer

  /** `currentTarget` and `lockStartTime`. */
  datatype Timer = Timer(target: Option<EnemyId>, start: Option<int>)

  const Idle: Timer := Timer(None, None)

  /** The fire condition `lockStartTime && now - lockStartTime >= 1200`;
      being a JavaScript truthiness test, a start time of 0 does not count. */
  predicate Armed(t: Timer, now: int) {
    t.start.Some? && t.start.value != 0 && now - t.start.value >= LOCK_TIME_TO_FIRE
  }

  /** One frame of the lock timer given the enemy under the reticle (or
      none): returns the new timer and whether it fires. */
  function LockStep(t: Timer, lock: Option<EnemyId>, now: int): (r: (Timer, bool))
    ensures lock.None? ==> r == (Idle, false)
    ensures lock.Some? && t.target != lock ==> r == (Timer(lock, Some(now)), false)
    ensures r.1 <==> lock.Some? && t.target == lock && Armed(t, now)
    ensures r.1 ==> r.0 == Timer(lock, Some(now))
    ensures lock.Some? && t.target == lock && !r.1 ==> r.0 == t
  {
    match lock
    case None => (Idle, false)
    case Some(id) =>
      if t.target != lock then (Timer(lock, Some(now)), false)
      else if Armed(t, now) then (Timer(lock, Some(now)), true)
      else (t, false)
  }

  /** One frame's input to the lock timer. */
  datatype Sample = Sample(lock: Option<EnemyId>, now: int)

  /** The lock timer over a run of frames: the final timer and the times at
      which it fired. */
  function RunTimer(t: Timer, frames: seq<Sample>): (Timer, seq<int>)
    decreases |frames|
  {
    if |frames| == 0 then (t, [])
    else
      var step := LockStep(t, frames[0].lock, frames[0].now);
      var rest := RunTimer(step.0, frames[1..]);
      (rest.0, (if step.1 then [frames[0].now] else []) + rest.1)
  }

  ghost predicate NonDecreasing(frames: seq<Sample>) {
    forall i, j :: 0 <= i < j < |frames| ==> frames[i].now <= frames[j].now
  }

  /** If the timer started no earlier than `a` and no frame is earlier than
      `a`, every shot comes at least a full dwell after `a`. */
  lemma {:induction false} ShotsAfter(t: Timer, frames: seq<Sample>, a: int)
    requires t.start.Some? ==> t.start.value >= a
    requires forall i :: 0 <= i < |frames| ==> frames[i].now >= a
    ensures forall k :: 0 <= k < |RunTimer(t, frames).1| ==> RunTimer(t, frames).1[k] >= a + LOCK_TIME_TO_FIRE
    decreases |frames|
  {
    if |frames| > 0 {
      var step := LockStep(t, frames[0].lock, frames[0].now);
      ShotsAfter(step.0, frames[1..], a);
    }
  }

  /** Successive times at least one dwell apart. */
  ghost predicate Spaced(times: seq<int>) {
    forall k :: 0 < k < |times| ==> times[k] - times[k - 1] >= LOCK_TIME_TO_FIRE
  }

  /** With frame times that never go backwards, successive shots are at
      least `LOCK_TIME_TO_FIRE` apart. */
  lemma {:induction false} ShotsSpaced(t: Timer, frames: seq<Sample>)
    requires NonDecreasing(frames)
    ensures Spaced(RunTimer(t, frames).1)
    decreases |frames|
  {
    if |frames| > 0 {
      var step := LockStep(t, frames[0].lock, frames[0].now);
      var rest := RunTimer(step.0, frames[1..]);
      assert NonDecreasing(frames[1..]) by {
        forall i, j | 0 <= i < j < |frames[1..]| ensures frames[1..][i].now <= frames[1..][j].now {
          assert frames[1..][i] == frames[i + 1] && frames[1..][j] == frames[j + 1];
        }
      }
      ShotsSpaced(step.0, frames[1..]);
      assert Spaced(rest.1);
      var shots := RunTimer(t, frames).1;
      if step.1 {
        assert shots == [frames[0].now] + rest.1;
        forall i | 0 <= i < |frames[1..]| ensures frames[1..][i].now >= frames[0].now {
          assert frames[1..][i] == frames[i + 1];
        }
        ShotsAfter(step.0, frames[1..], frames[0].now);
        forall k | 0 < k < |shots| ensures shots[k] - shots[k - 1] >= LOCK_TIME_TO_FIRE {
          if k == 1 {
            assert shots[1] == rest.1[0];
          } else {
            assert shots[k] == rest.1[k - 1] && shots[k - 1] == rest.1[k - 2];
          }
        }
      } else {
        assert shots == rest.1;
      }
    }
  }

  /** Frames `from` to `last` of holding one target, 100 ms apart, counted
      from `t0`. */
  function Hold(id: EnemyId, t0: int, from: nat, last: nat): (r: seq<Sample>)
    requires from <= last + 1
    ensures |r| == last + 1 - from
    ensures forall i :: 0 <= i < |r| ==> r[i] == Sample(Some(id), t0 + 100 * (from + i))
    decreases last + 1 - from
  {
    if from > last then [] else [Sample(Some(id), t0 + 100 * from)] + Hold(id, t0, from + 1, last)
  }

  /** Within one dwell, frames 100 ms apart on the same target do not fire. */
  lemma {:induction false} HoldBelowDwell(id: EnemyId, s: int, from: nat, last: nat)
    requires s != 0 && 1 <= from <= last + 1 && last <= 11
    ensures RunTimer(Timer(Some(id), Some(s)), Hold(id, s, from, last)) == (Timer(Some(id), Some(s)), [])
    decreases last + 1 - from
  {
    if from <= last {
      var t := Timer(Some(id), Some(s));
      var frames := Hold(id, s, from, last);
      assert frames[0] == Sample(Some(id), s + 100 * from);
      assert frames[1..] == Hold(id, s, from + 1, last);
      assert !Armed(t, s + 100 * from);
      assert LockStep(t, frames[0].lock, frames[0].now) == (t, false);
      HoldBelowDwell(id, s, from + 1, last);
      assert RunTimer(t, frames[1..]) == (t, []);
      var none: seq<int> := [];
      assert RunTimer(t, frames).1 == none + none;
      assert none + none == none;
    } else {
      assert Hold(id, s, from, last) == [];
    }
  }

  /** Holding a target with frames every 100 ms fires once per full dwell:
      `m` dwells after the lock began, exactly `m` shots, at 1200 ms steps. */
  lemma {:induction false} HoldFiresEveryDwell(id: EnemyId, s: int, m: nat)
    requires s > 0
    ensures RunTimer(Timer(Some(id), Some(s)), Hold(id, s, 1, 12 * m))
         == (Timer(Some(id), Some(s + LOCK_TIME_TO_FIRE * m)), seq(m, j => s + LOCK_TIME_TO_FIRE * (j + 1)))
    decreases m
  {
    var t := Timer(Some(id), Some(s));
    if m == 0 {
      assert Hold(id, s, 1, 0) == [];
      assert RunTimer(t, []) == (t, []);
      assert seq(0, j => s + LOCK_TIME_TO_FIRE * (j + 1)) == [];
    } else {
      var s' := s + LOCK_TIME_TO_FIRE;
      var first := Hold(id, s, 1, 11);
      var fire := [Sample(Some(id), s')];
      var later := Hold(id, s', 1, 12 * (m - 1));
      var whole := Hold(id, s, 1, 12 * m);
      assert whole == first + (fire + later) by {
        assert |whole| == |first + (fire + later)|;
        forall i | 0 <= i < |whole| ensures whole[i] == (first + (fire + later))[i] {
          if i >= 12 {
            assert later[i - 12] == Sample(Some(id), s' + 100 * (1 + i - 12));
          }
        }
      }
      RunAppend(t, first, fire + later);
      HoldBelowDwell(id, s, 1, 11);
      var t' := Timer(Some(id), Some(s'));
      assert LockStep(t, Some(id), s') == (t', true);
      assert (fire + later)[0] == Sample(Some(id), s');
      assert (fire + later)[1..] == later;
      HoldFiresEveryDwell(id, s', m - 1);
      var tail := seq(m - 1, j => s' + LOCK_TIME_TO_FIRE * (j + 1));
      assert RunTimer(t', later) == (Timer(Some(id), Some(s + LOCK_TIME_TO_FIRE * m)), tail);
      assert RunTimer(t, fire + later) == (Timer(Some(id), Some(s + LOCK_TIME_TO_FIRE * m)), [s'] + tail);
      assert RunTimer(t, first) == (t, []);
      assert [] + ([s'] + tail) == [s'] + tail;
      assert [s'] + tail == seq(m, j => s + LOCK_TIME_TO_FIRE * (j + 1));
    }
  }

  /** Running two stretches of frames is running the first, then the second
      from where the first left the timer. */
  lemma {:induction false} RunAppend(t: Timer, a: seq<Sample>, b: seq<Sample>)
    ensures RunTimer(t, a + b) == (RunTimer(RunTimer(t, a).0, b).0, RunTimer(t, a).1 + RunTimer(RunTimer(t, a).0, b).1)
    decreases |a|
  {
    if |a| == 0 {
      assert a + b == b;
      assert RunTimer(t, a) == (t, []);
      assert [] + RunTimer(t, b).1 == RunTimer(t, b).1;
    } else {
      var ab := a + b;
      assert ab[0] == a[0] && ab[1..] == a[1..] + b;
      var step := LockStep(t, a[0].lock, a[0].now);
      var pre := if step.1 then [a[0].now] else [];
      RunAppend(step.0, a[1..], b);
      var mid := RunTimer(step.0, a[1..]);
      var tail := RunTimer(mid.0, b);
      assert RunTimer(t, a) == (mid.0, pre + mid.1);
      assert RunTimer(step.0, a[1..] + b) == (tail.0, mid.1 + tail.1);
      assert RunTimer(t, ab) == (tail.0, pre + (mid.1 + tail.1));
      assert pre + (mid.1 + tail.1) == (pre + mid.1) + tail.1;
    }
  }

  // ---------------------------------------------------------------------
  // Damage

  /** `parseInt(enemy.dataset.health) || 100`: missing, unparsable and zero
      all read as full health. */
  function ReadHealth(h: Option<int>): (r: int)
    ensures r != 0
    ensures h.None? || h == Some(0) ==> r == FULL_HEALTH
    ensures h.Some? && h.value != 0 ==> r == h.value
  {
    match h
    case None => FULL_HEALTH
    case Some(v) => if v == 0 then FULL_HEALTH else v
  }

  /** The health left after one hit. */
  function Hit(h: Option<int>): int
  {
    ReadHealth(h) - DAMAGE
  }

  /** A hit costs exactly `DAMAGE` of the health as read. */
  lemma HitCostsDamage(h: Option<int>)
    ensures Hit(h) == ReadHealth(h) - 50
    ensures h.Some? && h.value != 0 ==> Hit(h) == h.value - 50
  {
  }

  /** From a fresh enemy (health 100, or a field read as 100) exactly two
      hits bring it to zero or below. */
  lemma TwoHitsDestroy(h: Option<int>)
    requires h.None? || h == Some(0) || h == Some(FULL_HEALTH)
    ensures Hit(h) > 0
    ensures Hit(Some(Hit(h))) <= 0
  {
  }

  // ---------------------------------------------------------------------
  // The game state

  datatype Combat = Combat(enemies: seq<Enemy>, timer: Timer, kills: nat)

  /** `fireAtOverlayEnemy` (with `destroyOverlayEnemy` when health runs out):
      the hit enemy's health drops; a kill is counted when it reaches zero.
      The enemy stays in the list until `RemoveEnemy` runs 300 ms later.
      Returns the new state and whether the enemy was destroyed. */
  function Fire(s: Combat, i: nat): (r: (Combat, bool))
    requires i < |s.enemies|
    ensures |r.0.enemies| == |s.enemies|
    ensures r.0.enemies[i] == s.enemies[i].(health := Some(ReadHealth(s.enemies[i].health) - DAMAGE))
    ensures forall j :: 0 <= j < |s.enemies| && j != i ==> r.0.enemies[j] == s.enemies[j]
    ensures r.1 <==> ReadHealth(s.enemies[i].health) <= DAMAGE
    ensures r.0.kills == if r.1 then s.kills + 1 else s.kills
    ensures r.0.timer == s.timer
  {
    var e := s.enemies[i];
    var health := Hit(e.health);
    var s' := s.(enemies := s.enemies[i := e.(health := Some(health))]);
    if health <= 0 then (s'.(kills := s.kills + 1), true) else (s', false)
  }

  /** What a frame of `overlayLoop` did. */
  datatype Event = Skipped | NoLock | Acquired(id: EnemyId) | Holding(id: EnemyId) | Shot(id: EnemyId, destroyed: bool)

  /** The enemy under the reticle this frame, by id. */
  function LockedId(es: seq<Enemy>, cx: real, cy: real): (r: Option<EnemyId>)
    ensures r.Some? <==> FindLock(es, cx, cy).Some?
    ensures r.Some? ==> r.value == es[FindLock(es, cx, cy).value.index].id
  {
    match FindLock(es, cx, cy)
    case None => None
    case Some(l) => Some(es[l.index].id)
  }

  /** One frame of `overlayLoop`. Nothing happens in AR or with no enemies;
      otherwise the lock timer advances on the enemy under the reticle and,
      when it fires, that enemy is hit. */
  function Tick(s: Combat, inAR: bool, cx: real, cy: real, now: int): (r: (Combat, Event))
    ensures inAR || |s.enemies| == 0 ==> r == (s, Skipped)
    ensures !inAR && |s.enemies| > 0 ==>
      r.0.timer == LockStep(s.timer, LockedId(s.enemies, cx, cy), now).0
    ensures r.1.Shot? <==> !inAR && |s.enemies| > 0 && LockStep(s.timer, LockedId(s.enemies, cx, cy), now).1
    ensures r.1.Shot? ==> s.timer.target == Some(r.1.id) && Armed(s.timer, now) && r.0.timer.start == Some(now)
    ensures r.1 == NoLock ==> r.0.timer == Idle
    ensures r.1.Acquired? ==> r.0.timer == Timer(Some(r.1.id), Some(now)) && s.timer.target != Some(r.1.id)
    ensures |r.0.enemies| == |s.enemies|
    ensures r.0.kills == if r.1.Shot? && r.1.destroyed then s.kills + 1 else s.kills
    ensures r.1.Shot? ==>
      && FindLock(s.enemies, cx, cy).Some?
      && var i := FindLock(s.enemies, cx, cy).value.index;
      && r.1.id == s.enemies[i].id
      && r.0.enemies == Fire(s, i).0.enemies
      && r.1.destroyed == Fire(s, i).1
    ensures !r.1.Shot? ==> r.0.enemies == s.enemies
    ensures forall j :: 0 <= j < |s.enemies| ==> r.0.enemies[j].id == s.enemies[j].id && r.0.enemies[j].rect == s.enemies[j].rect
  {
    if inAR || |s.enemies| == 0 then (s, Skipped)
    else match FindLock(s.enemies, cx, cy)
      case None => (s.(timer := Idle), NoLock)
      case Some(l) =>
        var id := s.enemies[l.index].id;
        var step := LockStep(s.timer, Some(id), now);
        if step.1 then
          var fired := Fire(s, l.index);
          (fired.0.(timer := step.0), Shot(id, fired.1))
        else if s.timer.target != Some(id) then (s.(timer := step.0), Acquired(id))
        else (s.(timer := step.0), Holding(id))
  }

  /** One frame of the overlay loop outside AR: its time, and where each
      drone is drawn then. Every drone's own 50 ms interval moves it between
      frames (game_logic_v10.js:648-661), so the rectangles are inputs. */
  datatype Frame = Frame(now: int, rects: seq<Vision.BBox>)

  /** Every frame places every drone of `es`. */
  ghost predicate Places(es: seq<Enemy>, frames: seq<Frame>) {
    forall k :: 0 <= k < |frames| ==> |frames[k].rects| == |es|
  }

  /** The drones drawn at `rects`; ids and health stay. */
  function Move(es: seq<Enemy>, rects: seq<Vision.BBox>): (r: seq<Enemy>)
    requires |rects| == |es|
    ensures |r| == |es|
    ensures forall k :: 0 <= k < |es| ==> r[k].id == es[k].id && r[k].health == es[k].health && r[k].rect == rects[k]
  {
    seq(|es|, k requires 0 <= k < |es| => es[k].(rect := rects[k]))
  }

  /** The overlay loop over a run of frames outside AR: the drones move,
      then the frame's `Tick` runs. The final state and the times of the
      shots. */
  function TickRun(s: Combat, cx: real, cy: real, frames: seq<Frame>): (Combat, seq<int>)
    requires Places(s.enemies, frames)
    decreases |frames|
  {
    if |frames| == 0 then (s, [])
    else
      var f := frames[0];
      var step := Tick(s.(enemies := Move(s.enemies, f.rects)), false, cx, cy, f.now);
      var rest := TickRun(step.0, cx, cy, frames[1..]);
      (rest.0, (if step.1.Shot? then [f.now] else []) + rest.1)
  }

  /** The lock-timer input of each frame: the id of the drone under the
      reticle where the frame draws the drones `es`, and the frame's time. */
  function Sightings(es: seq<Enemy>, cx: real, cy: real, frames: seq<Frame>): (r: seq<Sample>)
    requires Places(es, frames)
    ensures |r| == |frames|
    ensures forall k :: 0 <= k < |frames| ==> r[k] == Sample(LockedId(Move(es, frames[k].rects), cx, cy), frames[k].now)
    decreases |frames|
  {
    if |frames| == 0 then []
    else [Sample(LockedId(Move(es, frames[0].rects), cx, cy), frames[0].now)] + Sightings(es, cx, cy, frames[1..])
  }

  /** Which drone is under the reticle depends only on the drones' places,
      not on their health. */
  lemma LockedIdByPlace(a: seq<Enemy>, b: seq<Enemy>, cx: real, cy: real)
    requires |a| == |b|
    requires forall j :: 0 <= j < |a| ==> a[j].id == b[j].id && a[j].rect == b[j].rect
    ensures LockedId(a, cx, cy) == LockedId(b, cx, cy)
  {
    assert forall j :: 0 <= j < |a| ==> (InLockRange(a[j], cx, cy) <==> InLockRange(b[j], cx, cy));
  }

  /** Drones with the same ids are sighted alike in every frame. */
  lemma SightingsByIds(a: seq<Enemy>, b: seq<Enemy>, cx: real, cy: real, frames: seq<Frame>)
    requires |a| == |b| && Places(a, frames)
    requires forall j :: 0 <= j < |a| ==> a[j].id == b[j].id
    ensures Sightings(a, cx, cy, frames) == Sightings(b, cx, cy, frames)
  {
    forall k | 0 <= k < |frames|
      ensures LockedId(Move(a, frames[k].rects), cx, cy) == LockedId(Move(b, frames[k].rects), cx, cy)
    {
      LockedIdByPlace(Move(a, frames[k].rects), Move(b, frames[k].rects), cx, cy);
    }
  }

  /** Outside AR, the overlay loop drives the lock timer exactly as the timer
      alone would on the drone under the reticle in each frame, wherever the
      drones have moved: the shots fall at the timer's firing times. */
  lemma {:induction false} TickRunFollowsTimer(s: Combat, cx: real, cy: real, frames: seq<Frame>)
    requires |s.enemies| > 0 && Places(s.enemies, frames)
    ensures TickRun(s, cx, cy, frames).0.timer == RunTimer(s.timer, Sightings(s.enemies, cx, cy, frames)).0
    ensures TickRun(s, cx, cy, frames).1 == RunTimer(s.timer, Sightings(s.enemies, cx, cy, frames)).1
    decreases |frames|
  {
    if |frames| > 0 {
      var f := frames[0];
      var moved := s.(enemies := Move(s.enemies, f.rects));
      var step := Tick(moved, false, cx, cy, f.now);
      assert Places(step.0.enemies, frames[1..]);
      TickRunFollowsTimer(step.0, cx, cy, frames[1..]);
      SightingsByIds(step.0.enemies, s.enemies, cx, cy, frames[1..]);
      var fs := Sightings(s.enemies, cx, cy, frames);
      assert fs[0] == Sample(LockedId(moved.enemies, cx, cy), f.now);
      assert fs[1..] == Sightings(s.enemies, cx, cy, frames[1..]);
    }
  }

  /** With a clock that never goes backwards, the overlay loop's shots are
      at least one dwell apart, however the drones move. */
  lemma TickShotsSpaced(s: Combat, cx: real, cy: real, frames: seq<Frame>)
    requires |s.enemies| > 0 && Places(s.enemies, frames)
    requires forall i, j :: 0 <= i < j < |frames| ==> frames[i].now <= frames[j].now
    ensures Spaced(TickRun(s, cx, cy, frames).1)
  {
    TickRunFollowsTimer(s, cx, cy, frames);
    ShotsSpaced(s.timer, Sightings(s.enemies, cx, cy, frames));
  }

  /** The removal 300 ms after a kill: `overlayEnemies.filter(e => e !== enemy)`. */
  function RemoveEnemy(es: seq<Enemy>, id: EnemyId): (r: seq<Enemy>)
    ensures forall k :: 0 <= k < |r| ==> r[k].id != id && r[k] in es
    ensures forall k :: 0 <= k < |es| && es[k].id != id ==> es[k] in r
    ensures Subseq(r, es)
    ensures DistinctIds(es) ==> DistinctIds(r)
  {
    var keep := (e: Enemy) => e.id != id;
    FilterSubseq(es, keep);
    SubseqDistinct(Filter(es, keep), es, (e: Enemy) => e.id);
    Filter(es, keep)
  }

  /** Removal keeps every copy of every other drone. */
  lemma RemoveEnemyCounts(es: seq<Enemy>, id: EnemyId)
    ensures forall e :: multiset(RemoveEnemy(es, id))[e] == if e.id != id then multiset(es)[e] else 0
  {
    FilterCounts(es, (e: Enemy) => e.id != id);
  }

  /** Removal takes out exactly the destroyed enemy and keeps the others in
      their order. */
  lemma RemoveEnemyKeepsOthers(es: seq<Enemy>, i: nat)
    requires DistinctIds(es) && i < |es|
    ensures RemoveEnemy(es, es[i].id) == es[..i] + es[i + 1..]
  {
    FilterDropsOne(es, i, (e: Enemy) => e.id != es[i].id);
  }

  /** A kill counts once: it raises `kills` by exactly one, and the later
      removal leaves every other enemy in place and in order. */
  lemma KillThenRemove(s: Combat, i: nat)
    requires DistinctIds(s.enemies) && i < |s.enemies|
    requires Fire(s, i).1
    ensures Fire(s, i).0.kills == s.kills + 1
    ensures RemoveEnemy(Fire(s, i).0.enemies, s.enemies[i].id) == s.enemies[..i] + s.enemies[i + 1..]
  {
    var es := Fire(s, i).0.enemies;
    assert es == s.enemies[i := es[i]];
    assert DistinctIds(es);
    RemoveEnemyKeepsOthers(es, i);
    assert es[..i] == s.enemies[..i];
    assert es[i + 1..] == s.enemies[i + 1..];
  }

  // ---------------------------------------------------------------------
  // Spawning

  /** The spawn guard of the periodic spawner and of a tap. */
  predicate MaySpawn(blocked: bool, count: nat) {
    !blocked && count < MAX_ENEMIES
  }

  /** A guarded spawn (`!isInAR && overlayEnemies.length < MAX_ENEMIES`) of
      a newly created element. */
  function Spawn(es: seq<Enemy>, e: Enemy, blocked: bool): (r: seq<Enemy>)
    requires FreshId(es, e.id)
    ensures |es| <= MAX_ENEMIES ==> |r| <= MAX_ENEMIES
    ensures MaySpawn(blocked, |es|) ==> r == es + [e]
    ensures !MaySpawn(blocked, |es|) ==> r == es
    ensures DistinctIds(es) ==> DistinctIds(r)
  {
    if MaySpawn(blocked, |es|) then Added(es, e) else es
  }

  /** The two first-enemy spawns (2 s after start, unconditionally; 3 s after
      start, only checking AR), which skip the count check. */
  function SpawnFirst(es: seq<Enemy>, e: Enemy, blocked: bool): (r: seq<Enemy>)
    requires FreshId(es, e.id)
    ensures !blocked ==> r == es + [e] && |r| == |es| + 1
    ensures blocked ==> r == es
    ensures DistinctIds(es) ==> DistinctIds(r)
  {
    if blocked then es else Added(es, e)
  }

  /** `overlayEnemies.push(enemy)` of a new element. */
  function Added(es: seq<Enemy>, e: Enemy): (r: seq<Enemy>)
    requires FreshId(es, e.id)
    ensures r == es + [e]
    ensures DistinctIds(es) ==> DistinctIds(r)
  {
    AppendFreshDistinct(es, 0, e, (x: Enemy) => x.id);
    assert es[0..] == es;
    es + [e]
  }

  /** The unguarded first-enemy spawns can push the field past the cap:
      three enemies spawned by taps in the first two seconds, then the 2 s
      and the 3 s spawn, make five (ids numbered in creation order). */
  lemma SpawnFirstExceedsCap(a: Enemy, b: Enemy, c: Enemy, d: Enemy, e: Enemy)
    requires a.id < b.id < c.id < d.id < e.id
    ensures var taps := Spawn(Spawn(Spawn([], a, false), b, false), c, false);
      |taps| == MAX_ENEMIES && |SpawnFirst(SpawnFirst(taps, d, false), e, false)| == MAX_ENEMIES + 2
  {
  }

  /** Guarded spawns of new elements, in any number, never take the field
      past the cap and never give two drones the same id. */
  lemma {:induction false} SpawnsKeepCap(es: seq<Enemy>, news: seq<Enemy>, blocked: bool)
    requires |es| <= MAX_ENEMIES
    requires DistinctIds(es + news)
    ensures |SpawnAll(es, news, blocked)| <= MAX_ENEMIES
    ensures |SpawnAll(es, news, blocked)| >= |es|
    ensures DistinctIds(SpawnAll(es, news, blocked))
    decreases |news|
  {
    if |news| == 0 {
      assert es + news == es;
    } else {
      SpawnAllStep(es, news, blocked);
      SpawnsKeepCap(Spawn(es, news[0], blocked), news[1..], blocked);
    }
  }

  /** One step of `SpawnAll` keeps its precondition. */
  lemma SpawnAllStep(es: seq<Enemy>, news: seq<Enemy>, blocked: bool)
    requires |news| > 0 && DistinctIds(es + news)
    ensures FreshId(es, news[0].id)
    ensures DistinctIds(Spawn(es, news[0], blocked) + news[1..])
  {
    var all := es + news;
    assert all[|es|] == news[0];
    forall k | 0 <= k < |es| ensures es[k].id != news[0].id {
      assert all[k] == es[k];
    }
    if MaySpawn(blocked, |es|) {
      assert Spawn(es, news[0], blocked) + news[1..] == all;
    } else {
      DropDistinct(all, |es|, (e: Enemy) => e.id);
      assert all[..|es|] + all[|es| + 1..] == es + news[1..];
    }
  }

  /** Spawning each of `news` in turn. */
  function SpawnAll(es: seq<Enemy>, news: seq<Enemy>, blocked: bool): seq<Enemy>
    requires DistinctIds(es + news)
    decreases |news|
  {
    if |news| == 0 then es
    else
      SpawnAllStep(es, news, blocked);
      SpawnAll(Spawn(es, news[0], blocked), news[1..], blocked)
  }

  // =====================================================================
  // Real-world reticle read-out

  /** `lastPredictions`: the detector's output with weak predictions dropped. */
  function Confident(ps: seq<Vision.Prediction>): (r: seq<Vision.Prediction>)
    ensures forall k :: 0 <= k < |r| ==> r[k].score >= MIN_SCORE && r[k] in ps
    ensures forall k :: 0 <= k < |ps| && ps[k].score >= MIN_SCORE ==> ps[k] in r
    ensures Subseq(r, ps)
  {
    var keep := (p: Vision.Prediction) => p.score >= MIN_SCORE;
    FilterSubseq(ps, keep);
    Filter(ps, keep)
  }

  /** Every confident prediction is kept as many times as the detector
      reported it. */
  lemma ConfidentCounts(ps: seq<Vision.Prediction>)
    ensures forall p :: multiset(Confident(ps))[p] == if p.score >= MIN_SCORE then multiset(ps)[p] else 0
  {
    FilterCounts(ps, (p: Vision.Prediction) => p.score >= MIN_SCORE);
  }

  /** The reticle lies in the prediction's screen box grown by
      `RETICLE_MARGIN` on every side, edges included. */
  predicate InCrosshair(view: Vision.Viewport, p: Vision.Prediction)
    requires view.Valid()
  {
    var b := view.ToScreen(p.bbox);
    var cx := view.CentreX();
    var cy := view.CentreY();
    b.x - RETICLE_MARGIN <= cx <= b.x + b.w + RETICLE_MARGIN && b.y - RETICLE_MARGIN <= cy <= b.y + b.h + RETICLE_MARGIN
  }

  /** The object `detectRealWorld` names: the first prediction in the
      crosshair. */
  function FindTarget(view: Vision.Viewport, ps: seq<Vision.Prediction>): (r: Option<nat>)
    requires view.Valid()
    ensures r.Some? ==> r.value < |ps| && InCrosshair(view, ps[r.value])
    ensures r.Some? ==> forall j :: 0 <= j < r.value ==> !InCrosshair(view, ps[j])
    ensures r.None? <==> forall j :: 0 <= j < |ps| ==> !InCrosshair(view, ps[j])
  {
    FirstIndex(ps, (p: Vision.Prediction) requires view.Valid() => InCrosshair(view, p))
  }

  /** A range read-out; a zero-height box gives JavaScript's `Infinity`. */
  datatype Distance = Finite(metres: real) | Unbounded

  function MinDistance(d: Distance, cap: real): (r: Distance)
    ensures r.Finite? && r.metres <= cap
    ensures d.Finite? && d.metres <= cap ==> r == d
  {
    match d
    case Unbounded => Finite(cap)
    case Finite(m) => Finite(MinR(m, cap))
  }

  /** Heights of the classes `detectRealWorld` knows, in metres. */
  function KnownHeight(cls: string): (r: Option<real>)
    ensures r.Some? ==> 0.0 < r.value <= 1.7
  {
    if cls == "person" then Some(1.7)
    else if cls == "chair" then Some(0.9)
    else if cls == "tv" then Some(0.6)
    else if cls == "laptop" then Some(0.3)
    else if cls == "bottle" then Some(0.25)
    else if cls == "cell phone" then Some(0.15)
    else None
  }

  /** `height / heightPercent`, `Infinity` for a zero-height box. */
  function OverHeight(height: real, hp: real): (r: Distance)
    ensures hp == 0.0 <==> r.Unbounded?
    ensures hp != 0.0 ==> r.metres * hp == height
  {
    if hp == 0.0 then Unbounded else Finite(height / hp)
  }

  /** `heightPercent`: the box's screen height as a share of the window
      height. */
  function HeightShare(view: Vision.Viewport, b: Vision.BBox): real
    requires view.Valid()
  {
    b.h * view.Scale() / view.innerH
  }

  /** A room calibration usable for ranging. */
  predicate UsableRoom(room: Option<Calibration.RoomData>) {
    room.Some? && room.value.calibrated && room.value.avgDistance > 0.0
  }

  /** The range of the object in the crosshair: 1.5 m over its share of the
      screen height; with a usable room calibration, capped at 1.2 times the
      room's mean wall distance, and for a known class recomputed from that
      class's real height instead. */
  function EstimateDistance(view: Vision.Viewport, p: Vision.Prediction, room: Option<Calibration.RoomData>): (r: Distance)
    requires view.Valid()
    ensures !UsableRoom(room) ==> r == OverHeight(1.5, HeightShare(view, p.bbox))
    ensures UsableRoom(room) && KnownHeight(p.cls).None? ==>
      r == MinDistance(OverHeight(1.5, HeightShare(view, p.bbox)), room.value.avgDistance * 1.2)
    ensures UsableRoom(room) && KnownHeight(p.cls).Some? ==>
      r == OverHeight(KnownHeight(p.cls).value, HeightShare(view, p.bbox))
  {
    var hp := HeightShare(view, p.bbox);
    var basic := OverHeight(1.5, hp);
    if UsableRoom(room) then
      var capped := MinDistance(basic, room.value.avgDistance * 1.2);
      match KnownHeight(p.cls)
      case Some(height) => OverHeight(height, hp)
      case None => capped
    else basic
  }

  /** A taller box takes a larger share of the screen. */
  lemma ShareGrowsWithHeight(view: Vision.Viewport, a: Vision.BBox, b: Vision.BBox)
    requires view.Valid()
    requires 0.0 < a.h <= b.h
    ensures 0.0 < HeightShare(view, a) <= HeightShare(view, b)
  {
    var s := view.Scale();
    assert 0.0 < a.h * s <= b.h * s;
    DivideMonotone(a.h * s, b.h * s, view.innerH);
  }

  /** A taller box reads as nearer (or as near): for a fixed window, video,
      class and calibration, the estimate does not grow with box height. */
  lemma DistanceShrinksWithHeight(view: Vision.Viewport, p: Vision.Prediction, q: Vision.Prediction,
                                  room: Option<Calibration.RoomData>)
    requires view.Valid()
    requires p.cls == q.cls && 0.0 < p.bbox.h <= q.bbox.h
    ensures EstimateDistance(view, p, room).Finite? && EstimateDistance(view, q, room).Finite?
    ensures EstimateDistance(view, q, room).metres <= EstimateDistance(view, p, room).metres
  {
    var hp := HeightShare(view, p.bbox);
    var hq := HeightShare(view, q.bbox);
    ShareGrowsWithHeight(view, p.bbox, q.bbox);
    ShareDivision(1.5, hp, hq);
    if UsableRoom(room) && KnownHeight(p.cls).Some? {
      ShareDivision(KnownHeight(p.cls).value, hp, hq);
    }
  }

  lemma DivideMonotone(a: real, b: real, c: real)
    requires 0.0 < a <= b && c > 0.0
    ensures 0.0 < a / c <= b / c
  {
    assert b / c - a / c == (b - a) / c;
  }

  lemma ShareDivision(height: real, hp: real, hq: real)
    requires height > 0.0 && 0.0 < hp <= hq
    ensures height / hq <= height / hp
  {
    assert height / hp - height / hq == height * (hq - hp) / (hp * hq);
  }

  // =====================================================================
  // Sensors

  /** `updateRadiation`: light (lux) and field strength (µT) combined into a
      0–100 gauge reading. */
  function Radiation(lux: int, mag: int): (r: real)
    ensures 0.0 <= r <= 100.0
  {
    var luxScore := MinR(100.0, lux as real / 10.0);
    var magScore := MinR(100.0, (mag - 30) as real * 2.0);
    MinR(100.0, MaxR(0.0, (luxScore + magScore) / 2.0))
  }

  /** Within the sensors' ordinary range the gauge is the mean of the two
      scores, and it never falls when light or field strength rises. */
  lemma RadiationMeaning(lux: int, mag: int, lux': int, mag': int)
    requires lux <= lux' && mag <= mag'
    ensures Radiation(lux, mag) <= Radiation(lux', mag')
    ensures 0 <= lux <= 1000 && 30 <= mag <= 80 ==>
      Radiation(lux, mag) == (lux as real / 10.0 + (mag - 30) as real * 2.0) / 2.0
  {
  }

  /** `motionHistory.push(m)`, dropping the oldest once past 25 samples. */
  function PushSample(history: seq<real>, m: real): (r: seq<real>)
    ensures |r| > 0 && r[|r| - 1] == m
    ensures |history| < MOTION_WINDOW ==> r == history + [m]
    ensures |history| <= MOTION_WINDOW ==> |r| <= MOTION_WINDOW
    ensures |history| >= MOTION_WINDOW ==> r == history[1..] + [m]
  {
    var h := history + [m];
    if |h| > MOTION_WINDOW then h[1..] else h
  }

  function Square(d: real): (r: real)
    ensures r >= 0.0
  {
    if d >= 0.0 then d * d else (-d) * (-d)
  }

  function SumSquares(xs: seq<real>, mean: real): (r: real)
    ensures r >= 0.0
  {
    if |xs| == 0 then 0.0 else Square(xs[0] - mean) + SumSquares(xs[1..], mean)
  }

  /** The population variance of the window. */
  function Variance(xs: seq<real>): (r: real)
    requires |xs| > 0
    ensures r >= 0.0
  {
    SumSquares(xs, Average(xs)) / |xs| as real
  }

  /** The motion detector: `None` (keep the previous verdict) until the window
      holds 25 samples, then whether the variance exceeds 0.8. */
  function Moving(history: seq<real>): (r: Option<bool>)
    ensures r.None? <==> |history| < MOTION_WINDOW
    ensures r.Some? ==> (r.value <==> Variance(history) > MOTION_THRESHOLD)
  {
    if |history| >= MOTION_WINDOW then Some(Variance(history) > MOTION_THRESHOLD) else None
  }

  lemma {:induction false} SumConstant(xs: seq<real>, c: real)
    requires forall i :: 0 <= i < |xs| ==> xs[i] == c
    ensures Sum(xs) == c * |xs| as real
    ensures SumSquares(xs, c) == 0.0
  {
    if |xs| > 0 {
      SumConstant(xs[1..], c);
    }
  }

  /** A device held perfectly still (every magnitude equal) reads as idle
      once the window is full. */
  lemma SteadyIsIdle(history: seq<real>)
    requires |history| >= MOTION_WINDOW
    requires forall i :: 0 <= i < |history| ==> history[i] == history[0]
    ensures Moving(history) == Some(false)
  {
    SumConstant(history, history[0]);
    assert Average(history) == history[0];
  }
}
