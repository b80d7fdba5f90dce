# ARWEBGAME core, modelled in Dafny

ARWEBGAME is a browser "Iron Man" heads-up display drawn over the phone camera. It has three pages, and this project models the logic behind each of them, plus a shared logger:

- **combat HUD** (`game_logic_v10.js`, module `Combat`):
  - overlay drones lock onto the reticle and fire after a 1.2 s dwell;
  - two hits destroy a drone, and it is removed 300 ms later;
  - spawning is capped at three drones;
  - the reticle read-out names the detected object in the crosshair and estimates its range. It can use the room calibration for this.
  - also modelled: the "radiation" gauge and the motion detector.
- **scanner HUD** (`game_logic.js`, module `Focus`):
  - the detection under the reticle is scanned, and identified 1.5 s later if it is still the one locked;
  - also modelled: the hazard gauge, voice bars, battery read-out and boot bar.
- **drive-assist HUD** (`drive_logic.js`, module `Drive`):
  - drive clock and break reminder;
  - night mode with hysteresis;
  - the alert list (de-duplicated, at most five, info alerts expire);
  - the front distance from road objects ahead, and the reactions to objects too close;
  - the speed colour;
  - the speed-limit reader's bookkeeping: OCR throttle, region de-duplication, image thresholding, limit update.
- **room calibration wizard** (`calibration.js`, module `Calibration`): four walls, each measured (0.5–20 m) or skipped, then the mean distance and a room-size class.
- **debug logger** (`logger.js`, module `Logger`):
  - a list of at most 500 entries, mirrored to storage. On a full storage only the newest 100 are kept.
  - per-type statistics;
  - performance marks.

`Vision` holds the detector's prediction type and the "cover" video-to-screen mapping that both HUDs use. `Base` holds `Option` and the JavaScript arithmetic the pages rely on.

## How the page's runtime appears in the model

- **Clocks** (`Date.now()`, `performance.now()`) are parameters, in integer milliseconds.
- **Timers become separate operations.**
  - The 300 ms drone removal is `Combat.RemoveEnemy`.
  - The 5 s alert expiry is `Drive.ExpireAlert`.
  - The 1.5 s scan reveal is a queue of pending reveals, delivered by `Focus.Advance`.
- **Sensors, the object detector, the OCR engine and storage are inputs.**
  - A prediction list, a light level or an OCR-read number is passed in.
  - A storage write is an outcome: saved, saved after trimming, or failed.
- **JavaScript semantics are written out:**
  - `Math.round` rounds halves up.
  - `%` truncates toward zero.
  - `||` and `&&` use truthiness:
    - a lock start time of 0 does not arm the timer;
    - `parseInt(health) || 100` reads 0 as 100;
    - a performance mark of 0 counts as absent;
    - `error.message || error`.
  - A zero-height box yields `Infinity`, modelled as `Combat.Distance.Unbounded` or as `None`.
- **Object identity by reference** becomes an explicit id: a drone's id, a detection's id, an alert element's id.
  - The scanner compares detections by reference, and every detector run builds fresh objects. So a second run that still sees something under the reticle re-locks onto a new object and discards the pending reveal. `Focus.FreshFrameDelaysReveal` proves that the scan then cannot complete before the new object's own 1.5 s.
  - This is what the code does. No tracker carries an identity from one frame to the next.
- **`isInAR` is an input flag.** `game_logic_v10.js` reads `isInAR` (lines 740, 777, 784 and 791) but never declares it. The model takes it as a boolean input, so it assumes the page defines it elsewhere. If nothing does, the read at line 740 throws on the first call at line 773, and the spawn timers and tap handler of lines 776-795 are never registered.

## Model

| member | source | states |
|---|---|---|
| Calibration.Present | calibration.js:254 | The walls kept for the statistics are exactly the measured ones: a value is kept if and only if some wall holds it. |
| Calibration.PresentCounts | calibration.js:254 | Each measured value is kept exactly as many times as walls hold it, which is all the mean depends on. |
| Calibration.Classify | calibration.js:259-262 | Every average gets a size. Small if and only if below 2 m, medium if and only if in [2, 4), large if and only if 4 m or more. |
| Calibration.Complete | calibration.js:252-265 | Completing marks the room calibrated and stamps it with the time. The walls are unchanged, the average is the mean of the measured walls (0 if none), and the size is that average's class. |
| Calibration.ScreenOf | calibration.js:157-185 | Past the fourth step the completion screen shows. Otherwise the screen shows the current direction and step/4 of 100 % progress. Of the four dots, exactly those before the step are done, and exactly the step's own is active. |
| Calibration.UpdateUI | calibration.js:157-161 | A redraw never moves the step. It changes the room only past the fourth step, and then it completes the room. |
| Calibration.ConfirmDistance | calibration.js:212-238 | A NaN value, or one outside [0.5, 20], is refused and changes nothing. A valid value after all four steps throws and changes nothing. Otherwise the value goes into the current direction's wall and no other, and the step advances by one. The rest of the room is untouched until the fourth value, which marks it calibrated. |
| Calibration.SkipStep | calibration.js:241-249 | Skipping clears the current direction's wall only and advances by one step. The rest of the room is untouched until the fourth step, which marks it calibrated. After all four steps it throws and changes nothing. |
| Calibration.LastStepCompletes | calibration.js:229-248 | The button that fills the fourth wall, confirm or skip, completes the room from the four walls as stored: average, size class, flag and timestamp. Every other field of the room is kept. |
| Calibration.Reset | calibration.js:335-353 | A reset returns to step 0 with no wall measured, no average and no calibration. The screen shows the front wall at 0 % with the first dot active. |
| Calibration.Load | calibration.js:319-332 | Stored data replaces the room if and only if it is present, parses and says it is calibrated. The step is never touched. |
| Calibration.FirstReference | calibration.js:119-120 | The live estimate uses the first prediction of a known class with score above 0.5. No earlier prediction qualifies, and there is none exactly when no prediction qualifies. |
| Calibration.LiveDistance | calibration.js:131 | The live estimate always lies in [0.5, 15] m and is unchanged when already inside. |
| Calibration.ButtonsKeepWallsInRange | calibration.js:213-221 | Neither button can put a wall outside [0.5, 20] m. |
| Calibration.CompletedAverageInRange | calibration.js:254-257 | For walls entered through the wizard, the completed room's average is 0 (nothing measured) or lies in [0.5, 20] m. |
| Calibration.PressFills | calibration.js:220-248 | Either button, pressed before the end with a valid value or as a skip, stores exactly that value in the current wall and no other, and advances one step. Reaching the fourth step calibrates the room. |
| Calibration.RunToEnd | calibration.js:220-248 | One valid press per remaining step finishes and calibrates the room. The remaining walls hold the pressed values in step order, and the earlier walls are untouched. |
| Calibration.FourStepsComplete | calibration.js:25-30 | From a reset, four presses fill front, right, back and left in that order and complete the calibration. |
| Combat.FakeDistance | game_logic_v10.js:681 | The shown range of a locked drone is never below 2. It falls by one per 10 px of width until 130 px. |
| Combat.FindLock | game_logic_v10.js:667-686 | The lock is the first drone, in list order, whose centre is within 100 px of the reticle. No earlier drone is, its range is that drone's shown range, and there is no lock exactly when no drone is in range. |
| Combat.LockStep | game_logic_v10.js:756-767 | Losing the lock resets the timer. A new target restarts it without firing. The timer fires if and only if the same target has been held, from a truthy start, for at least 1200 ms, and firing restarts the dwell. |
| Combat.ShotsAfter | game_logic_v10.js:757-763 | No shot comes before a full 1200 ms dwell after the lock began. |
| Combat.ShotsSpaced | game_logic_v10.js:760-762 | With a clock that never goes backwards, any two successive shots are at least 1200 ms apart, however targets come and go. |
| Combat.HoldBelowDwell | game_logic_v10.js:760 | Eleven 100 ms frames on a just-locked drone do not fire. |
| Combat.HoldFiresEveryDwell | game_logic_v10.js:757-763 | Holding one drone for m dwells at 100 ms frames fires exactly m shots, at 1200 ms, 2400 ms, … after the lock. |
| Combat.ReadHealth | game_logic_v10.js:696 | A drone's health as read is never 0: missing, unparsable and 0 all read as 100, and any other number as itself. |
| Combat.HitCostsDamage | game_logic_v10.js:696-697 | A hit lowers the health as read by exactly 50. |
| Combat.TwoHitsDestroy | game_logic_v10.js:696-704 | A fresh drone (health 100) survives one hit and is destroyed by the second. |
| Combat.Fire | game_logic_v10.js:688-709 | Firing changes only the hit drone's health, to the read health minus 50. The drone is destroyed exactly when its read health was at most 50. A kill is counted exactly then, and the list's length is unchanged until the removal timer. |
| Combat.Tick | game_logic_v10.js:738-770 | In AR, or with no drones, a frame does nothing. Otherwise it steps the lock timer on the drone under the reticle. A shot happens exactly when that step fires. It hits that drone, the one already held and armed, exactly as `Fire` does, and a kill adds exactly one to the count. Losing the lock clears the timer. A frame without a shot leaves every drone as it was. The frame itself moves no drone and changes no id: drones move by their own intervals. |
| Combat.LockedIdByPlace | game_logic_v10.js:667-686 | Which drone is under the reticle depends only on the drones' ids and places, not on their health. |
| Combat.SightingsByIds | game_logic_v10.js:667-686 | Two drone lists with the same ids, drawn at the same places, see the same drone under the reticle in every frame. |
| Combat.TickRunFollowsTimer | game_logic_v10.js:738-770 | Outside AR, a run of frames in which the drones move between frames drives the lock timer exactly as the timer alone would. The timer sees, frame by frame, the drone under the reticle at that frame's places. The shots fall exactly at the timer's firing times. |
| Combat.TickShotsSpaced | game_logic_v10.js:757-763 | With a clock that never goes backwards, the overlay loop's successive shots are at least 1200 ms apart, however the drones move. |
| Combat.RemoveEnemy | game_logic_v10.js:724-727 | After removal no drone with that id remains. Every other drone remains, in the same order, and nothing new appears. Distinct ids stay distinct. |
| Combat.RemoveEnemyCounts | game_logic_v10.js:726 | Removal keeps every copy of every drone with another id, and none with that id. |
| Combat.RemoveEnemyKeepsOthers | game_logic_v10.js:726 | With distinct ids, removal deletes exactly the destroyed drone and keeps the others in order. |
| Combat.KillThenRemove | game_logic_v10.js:707-727 | A destroying shot counts one kill. The later removal leaves exactly the other drones, in their order, with their state. |
| Combat.Added | game_logic_v10.js:642 | Pushing a newly created drone appends it and keeps the ids distinct. |
| Combat.Spawn | game_logic_v10.js:775-779 | A guarded spawn of a newly created drone adds it if and only if not in AR and below three drones, and otherwise changes nothing. It never takes a capped field past three, and never gives two drones the same id. |
| Combat.SpawnFirst | game_logic_v10.js:782-785 | The first-drone spawn adds its new drone whenever not in AR, whatever the count, and keeps the ids distinct. |
| Combat.SpawnFirstExceedsCap | game_logic_v10.js:103-106 | Three taps before the 2 s timer fill the field to three. The 2 s and 3 s first-drone spawns then make five. |
| Combat.SpawnsKeepCap | game_logic_v10.js:788-794 | Any number of guarded spawns (timer or tap) of new drones keeps the field at most three, never shrinks it, and never gives two drones the same id. |
| Combat.Confident | game_logic_v10.js:442 | The kept predictions are exactly those scoring at least 0.35, in the detector's order. |
| Combat.ConfidentCounts | game_logic_v10.js:442 | Each prediction scoring at least 0.35 is kept as many times as the detector reported it, and no other is kept. |
| Combat.FindTarget | game_logic_v10.js:494-506 | The named object is the first prediction whose screen box, grown by 100 px on each side, contains the reticle. No earlier one does, and there is none exactly when none does. |
| Combat.MinDistance | game_logic_v10.js:520-521 | The capped range is finite and at most the cap. A range already within the cap is unchanged. |
| Combat.KnownHeight | game_logic_v10.js:524-527 | Every known class has a positive real height of at most 1.7 m. |
| Combat.OverHeight | game_logic_v10.js:516 | The range is `Infinity` exactly for a zero share. Otherwise range × share is the real height. |
| Combat.EstimateDistance | game_logic_v10.js:513-533 | Without a usable calibration the range is 1.5 m over the box's share of the screen height. With one, a known class uses its own height instead of 1.5 m and is not capped. Any other class is capped at 1.2 × the room's average. |
| Combat.ShareGrowsWithHeight | game_logic_v10.js:513 | A taller box takes a larger share of the screen height. |
| Combat.DistanceShrinksWithHeight | game_logic_v10.js:513-532 | For a fixed view, class and calibration, a taller box never reads as farther away, and both ranges are finite. |
| Combat.Radiation | game_logic_v10.js:320-324 | The gauge always reads between 0 and 100. |
| Combat.RadiationMeaning | game_logic_v10.js:322-324 | The gauge never falls when light or field strength rises. In the ordinary range it is the mean of lux/10 and twice the field above 30 µT. |
| Combat.PushSample | game_logic_v10.js:229-230 | The new sample is always last. Below 25 samples it is appended, and from 25 the oldest is dropped, so the window never exceeds 25. |
| Combat.Variance | game_logic_v10.js:233-234 | The window's variance is never negative. |
| Combat.Moving | game_logic_v10.js:232-236 | There is no verdict until the window holds 25 samples. After that the device is moving if and only if the variance exceeds 0.8. |
| Combat.SteadyIsIdle | game_logic_v10.js:232-236 | A full window of identical readings reads as not moving. |
| Focus.Kept | game_logic.js:284 | The kept detections are exactly those scoring above 0.4, in the detector's order. |
| Focus.KeptCounts | game_logic.js:284 | Each detection scoring above 0.4 is kept as many times as the detector reported it, and no other is kept. |
| Focus.Focused | game_logic.js:347-357 | Something is focused exactly when some kept detection's screen box strictly contains the reticle. It is the first such detection. |
| Focus.StartScan | game_logic.js:373-392 | Starting a scan marks it running and schedules exactly one reveal for that object, 1.5 s later. |
| Focus.CheckFocus | game_logic.js:359-370 | The same focus changes nothing. A new focus becomes the locked object with its completion cleared, and a scan runs, with one new reveal, exactly when the focus is an object. The scan invariant is preserved. |
| Focus.Frame | game_logic.js:279-287 | A detector run keeps the confident detections, focuses on the one under the reticle and preserves the scan invariant. |
| Focus.FireReveal | game_logic.js:387-391 | A reveal completes the scan if and only if its object is still the locked one. Nothing else changes. |
| Focus.Advance | game_logic.js:386-392 | Delivering due reveals never changes the lock and never un-completes a scan. Every reveal left was pending and is not yet due, and every reveal not yet due is left, in queue order: each timer fires at its own time. |
| Focus.AdvanceHead | game_logic.js:386-392 | The scan is complete after the timers exactly when the later reveals complete it, or the first reveal is due and is for the object still locked. |
| Focus.DueRevealCompletes | game_logic.js:387-391 | A due reveal anywhere in the queue, for the object still locked, completes the scan. |
| Focus.CompletionNeedsDueReveal | game_logic.js:387-391 | A scan completes only through a due reveal for the object still locked. |
| Focus.AllDueRevealsComplete | game_logic.js:386-392 | Once every scheduled reveal is due, a locked object is identified. |
| Focus.AdvanceKeepsInv | game_logic.js:359-392 | Delivering reveals preserves the scan invariant: a scan runs exactly while something is locked, and a locked, unidentified object still has its reveal pending. |
| Focus.FreshFrameDelaysReveal | game_logic.js:283-286 | A detector run that re-locks onto a fresh object keeps the scan incomplete until that object's own 1.5 s have passed. |
| Focus.HazardScore | game_logic.js:180-183 | The hazard score is at most 100, and never negative for non-negative light. |
| Focus.Classify | game_logic.js:187-197 | SAFE if and only if below 30, CAUTION if and only if in [30, 70), DANGER if and only if 70 or above. |
| Focus.HazardMonotone | game_logic.js:141-183 | More field or more light never lowers the score. The page's simulated readings (40–55 µT, with the simulated 200–300 lux or with no light) show SAFE. |
| Focus.BinIndex | game_logic.js:221 | A bar reads a valid frequency bin, and the first bar reads the first. |
| Focus.BarHeight | game_logic.js:225-226 | A voice bar is 2–30 px, equal to the raw height when that is in range, and 2 px for silence. |
| Focus.BarColourOf | game_logic.js:230-236 | Hot if and only if the level exceeds 150, warm if and only if in (80, 150], cool if and only if at most 80. |
| Focus.BatteryLevel | game_logic.js:65 | A charge fraction in [0, 1] reads as a percentage in [0, 100]. |
| Focus.BatteryColourOf | game_logic.js:68-70 | Red if and only if below 20 %, yellow if and only if in [20, 50), cyan if and only if 50 % or more. |
| Focus.BootProgress | game_logic.js:46 | The boot bar after message k of n is positive, at most 100 %, and (k+1)/n of the way. |
| Focus.BootProgressRises | game_logic.js:39-48 | The boot bar grows with every message and is full after the last. |
| Drive.ElapsedSeconds | drive_logic.js:488 | Elapsed seconds are the whole seconds since the start: s × 1000 ≤ elapsed ms < (s+1) × 1000. |
| Drive.Duration | drive_logic.js:489-491 | For a non-negative time the clock shows hours, minutes < 60 and seconds < 60 that add back up to the elapsed seconds. |
| Drive.FatigueTimes | drive_logic.js:495-497 | The break reminder fires exactly at 1800·k seconds for k ≥ 5 (2.5 h, 3 h, …) and at no other time. |
| Drive.AddAlert | drive_logic.js:293-307 | A new alert element whose text matches the first shown alert of its kind is ignored. Otherwise it becomes the last alert, appended below five, or after dropping the oldest at five. The list never grows past five, and no element is shown twice. |
| Drive.FirstOfKind | drive_logic.js:295 | The alert found is the first of that kind in display order. None is found exactly when no alert has that kind. |
| Drive.ExpireAlert | drive_logic.js:310-312 | Only an info or success alert has the timer. Expiry removes that alert element; every other one stays, in display order, and no element is shown twice. |
| Drive.ExpireAlertCounts | drive_logic.js:310-312 | Expiry keeps every copy of every other alert element, and none of the expired one. |
| Drive.AddAlertTwice | drive_logic.js:294-296 | Adding two new elements with the same kind and text in a row, when no alert of its kind was shown, changes the list only once. |
| Drive.AlertsStayBounded | drive_logic.js:293-311 | Over any run of new alerts and expiry timers, starting from at most five alerts, the list never shows more than five alerts nor the same element twice. |
| Drive.LightStep | drive_logic.js:434-452 | Below 50 lux night mode is on, and from 100 lux it is off. In between it is kept. An info alert is added if and only if the mode changed. |
| Drive.LightHysteresis | drive_logic.js:435-444 | A repeated reading changes nothing. Two successive switches need a reading below 50 lux and one of 100 lux or more. |
| Drive.RoadInfo | drive_logic.js:53-64 | Every road object has a positive alert distance, and only the stop sign asks for a speed reading. |
| Drive.EstimateMetres | drive_logic.js:163-165 | The estimate is twice the canvas height over the box height, rounded. A zero-height box has none. |
| Drive.Closest | drive_logic.js:154-174 | The running minimum is at most its start and at most every road object ahead. It is its start or one of those estimates. |
| Drive.FrontDistance | drive_logic.js:147-174 | The front distance is the least estimate among road objects in the central 60 % of the canvas. It is 999 when there is none below 999. |
| Drive.React | drive_logic.js:192-201 | Only a road object closer than its alert distance provokes anything. A person then gives the pedestrian warning. Another danger-priority object gives the danger warning, and a warning-priority object gives an alert with its distance. An info-priority object gives nothing. |
| Drive.ReactionClasses | drive_logic.js:192-201 | Only a person can raise the pedestrian warning, and only a dog the danger warning. Only a bicycle, motorcycle, truck or cat can raise a distance alert, and cars, buses, traffic lights and stop signs raise nothing. A person nearer than 30 m, or a dog nearer than 40 m, always raises its warning. |
| Drive.Indicator | drive_logic.js:235-252 | Red with a 20 % bar if and only if below 10 m, amber at 50 % if and only if in [10, 20). Otherwise green, with the distance as a share of 30 m capped at 100 %. |
| Drive.FrontIndicator | drive_logic.js:211-219 | With nothing ahead the bar is full and green. Otherwise it is the indicator for the front distance. |
| Drive.IndicatorOrdered | drive_logic.js:240-248 | A nearer object never shows a safer colour. |
| Drive.SpeedColour | drive_logic.js:375-382 | Red with an over-speed alert if and only if over the limit. Amber if and only if within 10 km/h below it, green if and only if 10 or more below. |
| Drive.UpdateLimit | drive_logic.js:548-553 | A read number becomes the limit, and a warning is added if and only if it differs from the current one. No reading keeps the limit. |
| Drive.UpdateLimitSettles | drive_logic.js:606-612 | Reading the same sign again announces nothing. When every reading is a valid sign value, the limit stays a valid sign value. |
| Drive.LimitsFromReads | drive_logic.js:547-551 | After any series of readings the limit is the initial one or one of the numbers read. |
| Drive.OcrGate | drive_logic.js:521-525 | An OCR run starts if and only if the engine is ready and not busy, and at least 2 s have passed since the last start. The time of the last start is updated exactly then. |
| Drive.OcrStartsSpaced | drive_logic.js:520-525 | Over any run of attempts, whatever the clock does, each read starts at least 2 s after the previous start, and the first at least 2 s after the last start before the run. |
| Drive.Greedy | drive_logic.js:675-691 | The greedy pass keeps the first region first and never yields more regions than it was given. |
| Drive.MergeRegions | drive_logic.js:669-694 | Zero or one region passes through. Otherwise the result is the first three regions of the greedy pass, or all of them when it keeps fewer. |
| Drive.GreedyFacts | drive_logic.js:675-691 | The kept regions are input regions in input order. No kept region overlaps a later kept one, and every dropped region is overlapped by a kept one. |
| Drive.MergeRegionsFacts | drive_logic.js:669-693 | The regions handed to OCR are input regions in input order, none overlapping a later one. |
| Drive.Enhanced | drive_logic.js:700-705 | Thresholding leaves alpha bytes untouched and turns every colour byte into 0 or 255. |
| Drive.EnhanceForOcr | drive_logic.js:696-709 | The loop over four-byte groups yields, at every index, the thresholded byte. A pixel's colour bytes become 255 exactly when their mean exceeds 128. |
| Drive.EnhanceStable | drive_logic.js:700-705 | Re-thresholding any byte of a thresholded image gives that byte back. |
| Drive.EnhanceIdempotent | drive_logic.js:696-709 | Thresholding an already thresholded image changes nothing. |
| Logger.Last | logger.js:73 | `slice(-n)` keeps min(n, length) elements, and they are the list's tail. |
| Logger.AddLog | logger.js:61-84 | The new entry is always last, and the list is a tail of the old list plus the entry. A successful write keeps the newest 500. A failed write keeps the newest 100. An exception escapes if and only if the retry also failed. |
| Logger.AddAllKeepsNewest | logger.js:69-74 | However many entries are added, the list holds the newest 500 of everything. |
| Logger.ClearLogs | logger.js:156-160 | After clearing, the list holds exactly the LOGS_CLEARED entry. |
| Logger.ErrorData | logger.js:107-112 | The recorded message is the error's message, or the error itself when the message is empty. The stack is recorded if and only if it is a non-empty string. |
| Logger.LogError | logger.js:107-112 | An ERROR entry with that source and error data is always the newest entry. It follows a tail of the old entries, all 500 newest kept on a successful write. An exception escapes if and only if the write failed. |
| Logger.Init | logger.js:13-30 | The SESSION_START entry is always last. Stored entries are kept before it. An absent or unparsable store starts from nothing. |
| Logger.Bump | logger.js:172 | Counting one entry adds one to its type's count and nothing to any other, and the total grows by one. |
| Logger.BumpShape | logger.js:172 | Counting keeps every listed type in its place with a count that does not fall. It adds at most one pair, (type, 1), at the end, and only for a type not yet listed. |
| Logger.BumpKeepsDistinct | logger.js:172 | Counting keeps the listed types distinct and every count positive. |
| Logger.Tally | logger.js:171-174 | The per-type counts add up to the number of entries. Each type's count is the number of its entries, and no type is listed twice or with 0. |
| Logger.GetStats | logger.js:163-177 | The total is the list length, and the per-type counts sum to it and match the entries. The error counter agrees with the ERROR count, and the session time is rounded seconds. |
| Logger.ErrorCount | logger.js:173 | The error counter equals the number of ERROR entries. It always agrees with the ERROR bucket of the per-type counts. |
| Logger.CountPositive | logger.js:171-174 | A type has a positive count if and only if some entry has that type. |
| Logger.PerfStart | logger.js:182-184 | Starting a mark sets it to the current time and leaves every other mark. |
| Logger.PerfEnd | logger.js:186-194 | With a running (truthy) mark, the elapsed time is logged as a PERF entry. When the write succeeds the mark is dropped and the time is returned. When the write throws, the mark stays running. Without a running mark the result is 0 and nothing changes. |
| Logger.StartThenEnd | logger.js:182-194 | A start followed by an end logs exactly one PERF entry with the time in between, and the marks are restored. |

## Left out

- Drawing is not modelled: DOM updates, canvas drawing, text formatting (`toFixed`, `padStart`, `toLocaleTimeString`), CSS colours beyond their three-way choice, vibration and sounds.
- Device access is not modelled: camera, WebXR, `getUserMedia`, geolocation, battery, light and motion sensors, and the service worker. Their readings are inputs.
- The object detector (COCO-SSD) and the OCR engine (Tesseract) are foreign code. Predictions and the number OCR read are inputs.
- `Math.random` positions, movement and types of overlay drones are not modelled. They do not affect locking beyond the drone's rectangle, which is an input, given per frame in `Combat.TickRun`.
- Combat.TickRunFollowsTimer: a run keeps the same drones throughout. Spawns and removals between its frames are not part of it.
- Calibration.LiveDistance: the pinhole formula with `Math.tan` (calibration.js:129) is not modelled. Its result is an input, and only the clamp is stated.
- Focus.BarHeight: `Math.pow(x, 1.5)` is taken as a given input. Nothing about it is proved.
- Focus.BinIndex: only the bounds are stated, not the exact bin, which needs non-linear real arithmetic.
- Drive.UpdateLimit: the regular expressions over the OCR text are not modelled. The number they matched (or none) is the input, and the sets of numbers each one accepts appear only as `SignLimit` and `RegionLimit`.
- Drive.OcrGate: `ready` stands for "the OCR worker is loaded" and, for the region reader, for the camera's `readyState >= 2`. The region reader does not test the busy flag, so it passes `busy` as false.
- `findRedCircularRegions`, the colour scan that proposes sign regions, is not modelled. Its regions are the input of `Drive.MergeRegions`.
- `showWarning` and the 1.5 s hide timer of the warning overlay are not modelled. `Drive.React` states which warning is raised.
- `pred.class.toLowerCase()` is not modelled, and class names are taken as given. Lookups in `ROAD_OBJECTS` and `knownSizes` by keys inherited from `Object.prototype` (such as `"constructor"`) are not modelled either.
- Logger.LogError: a `null` or `undefined` error makes `error.message` throw (logger.js:109). This is not modelled, because every error is a value.
- Logger.Init: stored JSON that parses to something other than an array is not modelled.
- Logger.PerfEnd: the PERF entry holds the duration as a number, not the `toFixed(2) + 'ms'` text.
- Logger entry data other than errors and performance is an opaque payload.
- `getLogs`, `getLogsAsText`, `downloadLogs` and `overrideConsole` are not modelled. The typed loggers (`logAI`, `logAR`, `logCombat`, `logSensor`) are `Logger.AddLog` with a fixed type.
- The mode switch of the combat page (`setMode`, WebXR sessions) and its AR-mode enemies are not modelled. AR appears only as the `isInAR` and `gameMode` guards, passed in as `blocked`.
- NaN and infinite sensor readings are not modelled. Integer readings are exact.
- Tracking detections across frames (smoothing, expiry, stable identities) is not modelled: the code has none.

## Findings

| source | as written | input that shows it | evidently intended | confidence | as-written member | corrected member |
|---|---|---|---|---|---|---|
| game_logic_v10.js:103-106 | The first-drone spawns at 2 s (line 106, unconditional) and at 3 s (line 784, AR check only) skip the `overlayEnemies.length < MAX_ENEMIES` check that every other spawn makes. | With `isInAR` defined and false, three taps in the first two seconds (each allowed by the check at 791) give three drones. The 2 s and 3 s timers then add two more: five on screen, over the cap of three. | Every spawn respects `MAX_ENEMIES`, as the constant's comment and the tap and interval spawns do. | medium, not executed | Combat.SpawnFirstExceedsCap | Combat.SpawnsKeepCap |
