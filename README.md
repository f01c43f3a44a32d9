# Hand Slice Hero: a verified model of the game engine

Hand Slice Hero is a browser arcade game. The player's index fingertip,
tracked by a camera, is a blade that slices fruit thrown up from the bottom
of the screen. It has two modes:

- a time-bound mode: 60 seconds, where bombs cost points;
- a survival mode: 3 lives, where bombs and dropped plain fruit cost a life.

This project models the game's engine: the per-frame simulation and the
round logic around it. It models:

- the fruit table (`FRUIT_TYPES`);
- the simulation record (`entitiesRef`) and what acts on it:
  - `updatePhysics`: modifier countdowns, spawn cadence, motion and fall-out;
  - `spawnFruit`: the weighted category walk and the frenzy rule;
  - `detectCollisions` with `handleSlice`: the slice sweep and its consequences;
- the pointer trail kept by `animate`;
- the round plumbing: `startGame`, `endGame`, `syncLives`, the once-a-second
  countdown, the leaderboard update, and the screen states of the game.

Modules (one file each):

- `Fruits` (fruits.dfy): the nine categories with their score, radius,
  weight and flags, and the cumulative weights.
- `Round` (round.dfy): the modes, the screen states and the events that move
  between them, and the countdown reducer.
- `Leaderboard` (leaderboard.dfy): append, stable sort by score descending,
  keep five.
- `Geometry` (geometry.dfy): point-to-segment distance and the hit test,
  on squared distances over exact reals.
- `Trail` (trail.dfy): the `Cursor` class (`cursorRef`) with its bounded
  trail.
- `Spawner` (spawner.dfy): the weighted walk as a loop (`PickType`) and as a
  function (`ChosenIndex`), and the frenzy replacement.
- `Engine` (engine.dfy): the record as a value `World`. Each operation is a
  function on `World`. The class `Game` holds the same fields and updates them
  in place. Each `Game` method is proved to move its state exactly as the
  matching function says (`Snapshot() == TickSpec(old(Snapshot()), ...)`). The
  lemmas then state what those functions guarantee.

Two behaviours of the code shape the model:

- `detectCollisions` splices a sliced fruit out inside its `forEach`. The
  next fruit moves into the vacated index and is not tested in that sweep,
  and `forEach` stops at indices the shrinking list no longer has. `Sweep`
  models that, and `EveryOtherSurvives` states its consequence. Slicing also
  goes on after a hit has ended the round (`SweepScoresAfterRoundEnds`).
- On the ready screen, `animate` only feeds the trail from the hand sample.
  Physics and detection run only while a round is played (`Animate`).

## Model

| member | source | states |
|---|---|---|
| Fruits.TableWellFormed | Hand_tracking_fruit_game.jsx:30-40 | every category has a positive radius and weight, carries at most one of the bomb, ice and giant flags, and is in the table |
| Fruits.TableIsClosedSet | Hand_tracking_fruit_game.jsx:30-40 | the table lists nine distinct categories |
| Fruits.PrefixWeights | Hand_tracking_fruit_game.jsx:30-40 | the cumulative weights are 10, 20, 30, 40, 48, 56, 62, 64, 65, fixing each category's share of the draw |
| Fruits.TotalWeightIsSum | Hand_tracking_fruit_game.jsx:364 | the total weight 65 is the `reduce` of every weight in the table |
| Spawner.ChosenIndex | Hand_tracking_fruit_game.jsx:364-374 | the index the weighted walk stops at, always an entry of the table (the default entry 0 when the walk runs off the end); `ChosenIndexIsBucket` characterises it |
| Spawner.SpawnKind | Hand_tracking_fruit_game.jsx:364-379 | the category a new fruit gets: a table entry, never a bomb while frenzy is active, and the walk's choice otherwise |
| Spawner.PickType | Hand_tracking_fruit_game.jsx:362-374 | the subtracting walk returns the table entry `ChosenIndex` names for the same draw |
| Spawner.ChosenIndexIsBucket | Hand_tracking_fruit_game.jsx:364-374 | for a draw in [0, 65), entry i is chosen if and only if the draw lies in [prefix(i), prefix(i+1)), an interval as long as i's weight |
| Spawner.FrenzyNeverSpawnsBomb | Hand_tracking_fruit_game.jsx:376-379 | during frenzy the chosen category is never a bomb; outside frenzy, or for a non-bomb draw, the walk's choice is kept |
| Spawner.BombShareBecomesWatermelon | Hand_tracking_fruit_game.jsx:364-379 | a draw in [56, 62) yields a bomb normally and the watermelon during frenzy |
| Round.Next | Hand_tracking_fruit_game.jsx:100-155 | the screen each event sets unconditionally: ready on the first video frame (105) and on the menu button (775), error on a failed start-up (113), playing on a start (149), finished on endGame (153); its ensures state that only a start leads to playing and only endGame to finished |
| Round.Enabled | Hand_tracking_fruit_game.jsx:685-781 | where each event can occur: start-up settles while loading; the two start buttons (710, 724) are on the ready screen and "play again" (781) on the result screen; the menu button (775) is on the result screen; endGame fires while playing, or again in the same frame once finished. `PlayingNeedsReady`, `FinishedNeedsStart` and `ErrorIsFinal` state the reachable screens |
| Round.PlayingNeedsReady | Hand_tracking_fruit_game.jsx:100-114 | from loading, an enabled run of events ending in a round being played begins with the camera becoming ready |
| Round.FinishedNeedsStart | Hand_tracking_fruit_game.jsx:129-155 | from any state other than playing or finished, an enabled run that reaches finished contains a start |
| Round.ErrorIsFinal | Hand_tracking_fruit_game.jsx:111-114 | no event leaves the error screen |
| Round.CountdownStep | Hand_tracking_fruit_game.jsx:175-181 | the per-second reducer calls `endGame` exactly when the time left is at most 1; the time left never goes negative and otherwise drops by exactly one |
| Round.CountdownEndsOnTime | Hand_tracking_fruit_game.jsx:175-181 | from t >= 1 seconds, seconds 1..t-1 count down silently, and second t calls `endGame` and leaves 0 |
| Round.RoundLastsSixtySeconds | Hand_tracking_fruit_game.jsx:171-185 | with ROUND_TIME 60, the round-ending call happens at exactly the sixtieth second |
| Leaderboard.InsertStable | Hand_tracking_fruit_game.jsx:163 | one step of the stable sort under `b.score - a.score`: the entry goes after every entry scoring at least as much; `InsertStablePermutes`, `InsertStableSorts` and `InsertStablePlacesAfterTies` state it |
| Leaderboard.SortByScore | Hand_tracking_fruit_game.jsx:163 | the stable sort by descending score, as repeated stable insertion; `SortByScoreSorts` states it returns a sorted permutation |
| Leaderboard.UpdateHighScores | Hand_tracking_fruit_game.jsx:157-164 | append the entry, sort, keep the first five (`TakeTop`, the `slice(0, 5)`); `UpdateHighScoresShape` and `UpdateOnSortedBoard` state the result |
| Leaderboard.InsertStablePermutes | Hand_tracking_fruit_game.jsx:163 | one insertion step adds exactly the new entry |
| Leaderboard.InsertStableSorts | Hand_tracking_fruit_game.jsx:163 | one insertion step keeps a board sorted by score, highest first |
| Leaderboard.SortByScoreSorts | Hand_tracking_fruit_game.jsx:163 | the sort returns a descending permutation of its input |
| Leaderboard.InsertStablePlacesAfterTies | Hand_tracking_fruit_game.jsx:163 | a new entry goes after every entry with an equal or higher score (the stable sort's tie rule) |
| Leaderboard.SortByScoreKeepsSorted | Hand_tracking_fruit_game.jsx:163 | sorting an already sorted board changes nothing |
| Leaderboard.UpdateHighScoresShape | Hand_tracking_fruit_game.jsx:157-164 | the new board has min(old + 1, 5) entries, is sorted, holds only old entries and the new one, and no dropped entry outscores a kept one |
| Leaderboard.UpdateOnSortedBoard | Hand_tracking_fruit_game.jsx:157-164 | on a sorted board the update is the board with the entry inserted after its ties, cut to five |
| Geometry.SegmentDistSq | Hand_tracking_fruit_game.jsx:414-422 | the squared `pointToLineDistance`: never negative, and for a zero-length segment the squared distance to v |
| Geometry.Hit | Hand_tracking_fruit_game.jsx:406-408 | `dist < radius + 15`, compared on squares; `ThroughCentreHits` and `EndpointWithinReachHits` state when it holds |
| Geometry.AlongDistSq | Hand_tracking_fruit_game.jsx:414-422 | expansion of the squared distance to the point at parameter t of the segment |
| Geometry.OnSegmentIsAtZero | Hand_tracking_fruit_game.jsx:414-422 | a point on the segment is at distance 0 from it |
| Geometry.SegmentNoFartherThanEnds | Hand_tracking_fruit_game.jsx:414-422 | the clamped projection is never farther than either endpoint, and the distance is non-negative |
| Geometry.ThroughCentreHits | Hand_tracking_fruit_game.jsx:404-409 | a blade segment through a fruit's centre always hits it |
| Geometry.EndpointWithinReachHits | Hand_tracking_fruit_game.jsx:404-409 | once the segment is past the speed gate, a fingertip sample within radius + 15 of the centre hits |
| Trail.Pushed | Hand_tracking_fruit_game.jsx:234-239 | `push` then one `shift` beyond eight samples; `PushedKeepsWindow` states the window it keeps |
| Trail.PushedKeepsWindow | Hand_tracking_fruit_game.jsx:234-239 | a push keeps the trail at most 8 long, puts the sample last, and evicts only the oldest sample, only on overflow |
| Trail.TrailIsLatestSamples | Hand_tracking_fruit_game.jsx:234-239 | after any sequence of samples, the trail is the latest min(n, 8) of them in arrival order |
| Trail.Cursor.constructor | Hand_tracking_fruit_game.jsx:59 | the pointer starts off-screen at (-100, -100), with no trail and angle 0 |
| Trail.Cursor.Sample | Hand_tracking_fruit_game.jsx:224-239 | the position becomes the sample and the trail is pushed; the angle changes only if the trail was non-empty and the move exceeds 2 (`TurnsBlade`, the `Math.hypot(dx, dy) > 2` of line 229, on squares) |
| Trail.Cursor.ClearTrail | Hand_tracking_fruit_game.jsx:148 | the trail is emptied; position and angle are kept |
| Engine.Game.constructor | Hand_tracking_fruit_game.jsx:44-70 | the initial record: no fruit, score 0, 3 lives, time mode, timers 0, loading, 60 s, the saved board |
| Engine.Game.VideoReady | Hand_tracking_fruit_game.jsx:103-106 | the first video frame moves the game to ready and changes nothing else |
| Engine.Game.InitFailed | Hand_tracking_fruit_game.jsx:111-114 | a failed initialisation moves the game to the error screen and changes nothing else |
| Engine.Game.BackToMenu | Hand_tracking_fruit_game.jsx:775 | the menu button returns to ready and changes nothing else |
| Engine.Game.StartGame | Hand_tracking_fruit_game.jsx:129-150 | the record is reset for the chosen mode and the trail is emptied; the round reports to the board as it stood |
| Engine.Game.EndGame | Hand_tracking_fruit_game.jsx:152-164 | the game is finished and the board is rebuilt from the round's starting board plus this round's score and mode |
| Engine.Game.SyncLives | Hand_tracking_fruit_game.jsx:188-193 | the round ends exactly when no life is left |
| Engine.Game.LoseLife | Hand_tracking_fruit_game.jsx:335-336 | one life is taken, then syncLives runs |
| Engine.Game.SecondElapsed | Hand_tracking_fruit_game.jsx:172-181 | one second of the time-mode clock |
| Engine.Game.SpawnFruit | Hand_tracking_fruit_game.jsx:362-391 | one fruit of the walk's category (no bomb in frenzy) is appended at the bottom edge, thrown upward |
| Engine.Game.Tick | Hand_tracking_fruit_game.jsx:303-344 | one frame of physics, as `TickSpec` |
| Engine.Game.UpdateCounters | Hand_tracking_fruit_game.jsx:306-322 | countdowns, time scale, spawn rate and spawn, as `CountersSpec` |
| Engine.Game.MoveFruits | Hand_tracking_fruit_game.jsx:325-344 | every fruit moves, fallen ones are flagged and penalised, flagged ones are filtered out |
| Engine.Game.StepOne | Hand_tracking_fruit_game.jsx:326-342 | the per-fruit callback: move one fruit, flag it if it fell out, take a life for a plain fruit in survival |
| Engine.Game.HandleSlice | Hand_tracking_fruit_game.jsx:424-464 | the sliced fruit is spliced out and its category's consequence applied (displayed score per the corrected bomb branch, see Findings) |
| Engine.Game.DetectCollisions | Hand_tracking_fruit_game.jsx:393-412 | the gated sweep over the fruits, as `Detect` |
| Engine.Animate | Hand_tracking_fruit_game.jsx:196-269 | a frame: while playing or ready, a hand sample moves the pointer to the fingertip, turns the blade to the heading only after a move longer than 2 from the last sample, and feeds the trail; physics then detection run while playing; on other screens, or without a hand, the pointer, its angle and its trail are unchanged |
| Engine.Ended | Hand_tracking_fruit_game.jsx:152-164 | endGame on the record: the finished screen and the board rebuilt from the round's starting board; `EndingTwiceKeepsOneEntry` states what a second call leaves |
| Engine.LivesSynced | Hand_tracking_fruit_game.jsx:188-193 | syncLives on the record: endGame exactly when no life is left; `FalloutAllPenalties` and `SliceOutcome` state its effect on a frame and a slice, phase and board |
| Engine.StartSpec | Hand_tracking_fruit_game.jsx:129-150 | startGame on the record; `StartIsConsistent` states the round it starts |
| Engine.CountersSpec | Hand_tracking_fruit_game.jsx:306-322 | the countdowns (`CountDown`, one frame off while positive) and spawn step of updatePhysics, with `TimeScale` giving 0.4 in slow motion and 1 otherwise; `CountersFacts` and `SpawnsEvery56Frames` state its result |
| Engine.MoveSpec | Hand_tracking_fruit_game.jsx:325-344 | the motion, fall-out and filter of updatePhysics; `MoveFacts` states its result |
| Engine.FalloutAll | Hand_tracking_fruit_game.jsx:332-337 | the fall-out penalties applied in list order, each through `lives -= 1` and syncLives; only a fallen (`FellOut`) fruit that is `Penalized` (plain, in survival) costs a life; `FalloutAllPenalties` states the result |
| Engine.Compact | Hand_tracking_fruit_game.jsx:344 | `filter(f => !f.remove)`; `CompactFilters` states what it keeps |
| Engine.SliceEffect | Hand_tracking_fruit_game.jsx:430-463 | the consequence of slicing each category, with the bomb penalty passed on to the display; `SliceOutcome` states it per category |
| Engine.SliceEffectAsWritten | Hand_tracking_fruit_game.jsx:430-463 | the consequence as written: the same record as `SliceEffect` except the displayed score, which a time-mode bomb leaves unchanged |
| Engine.Sweep | Hand_tracking_fruit_game.jsx:405-411 | the `forEach` with `handleSlice` splicing inside it; `SweepIsSurvivors` states exactly which fruits it keeps, and `SweepFacts`, `SweepKeepsUnhit`, `SweepMissingAll`, `SweepPastEnd` and `SweepSkipsShifted` state its result |
| Engine.Detect | Hand_tracking_fruit_game.jsx:393-412 | detectCollisions on the record: nothing below two samples or when the last segment is shorter than 3 (`FastEnough`, lines 402-403, on squares); `DetectIsSurvivors`, `DetectFacts` and `EveryOtherSurvives` state its result |
| Engine.SpawnRate | Hand_tracking_fruit_game.jsx:314-316 | the frames between spawns for the current modifiers; `SpawnCadence` states its values |
| Engine.NewFruit | Hand_tracking_fruit_game.jsx:381-390 | the pushed fruit: x from its draw across the canvas less 50 at each side, 50 below the bottom edge, thrown upward, rotation 0, unflagged; `Game.SpawnFruit` appends it |
| Engine.Spawn | Hand_tracking_fruit_game.jsx:362-391 | spawnFruit on the record: the walk's category (no bomb in frenzy) appended as a new fruit; `CountersFacts` and `FrenzyFrameAddsNoBomb` state its result within a frame |
| Engine.Move | Hand_tracking_fruit_game.jsx:326-329 | one step of motion scaled by the time scale, gravity added to vy; `MoveFacts` states the frame it belongs to |
| Engine.StepFruit | Hand_tracking_fruit_game.jsx:326-340 | move one fruit and flag it once it is 50 below the canvas (`FellOut`); `MoveFacts` states that exactly the flagged fruits are dropped |
| Engine.TickSpec | Hand_tracking_fruit_game.jsx:303-344 | updatePhysics on the record, counters then motion; `TickFacts` states its result and `Game.Tick` is proved to follow it |
| Engine.LifeLost | Hand_tracking_fruit_game.jsx:335-336 | `lives -= 1` then syncLives; `FalloutAllPenalties`, `SliceOutcome` and `ThreeBombsEndSurvival` state its effect |
| Engine.SliceAt | Hand_tracking_fruit_game.jsx:424-464 | handleSlice on the record: splice, then the category's consequence; `SliceOutcome` and `SliceSplices` state its result |
| Engine.SecondSpec | Hand_tracking_fruit_game.jsx:175-181 | one second of the time-mode clock on the record; `ClockRunsDown` and `TimeRoundLastsSixtySeconds` state its result |
| Engine.FrameSpec | Hand_tracking_fruit_game.jsx:264-268 | a frame of play: physics then detection while playing, nothing otherwise; `FrameKeepsConsistent` states its result and `Animate` is proved to follow it |
| Engine.FalloutAllPenalties | Hand_tracking_fruit_game.jsx:332-343 | each fallen fruit costs exactly one life, and only a plain fruit in survival; the round ends, recording its entry, when a penalty leaves no life; nothing else changes |
| Engine.MissCount | Hand_tracking_fruit_game.jsx:332-337 | the number of penalised fruits never exceeds the number of fruits, and is 0 in time mode |
| Engine.CompactFilters | Hand_tracking_fruit_game.jsx:344 | the filter keeps exactly the unflagged fruits in order, never lengthens the list, is idempotent, and is the identity on unflagged lists |
| Engine.StartIsConsistent | Hand_tracking_fruit_game.jsx:129-150 | a fresh round is consistent and being played, with 3 lives, no fruit, and the current board as its starting board |
| Engine.CountersFacts | Hand_tracking_fruit_game.jsx:307-322 | both modifier countdowns fall by one down to 0; spawnTimer becomes old + 1, or 0 when old + 1 exceeds this frame's rate, so it stays at or below the rate; it is 0 exactly when the walk's fruit (a non-bomb in frenzy) is appended; fruits stay unflagged; score, lives, mode, screen, clock and boards are kept |
| Engine.MoveFacts | Hand_tracking_fruit_game.jsx:325-342 | the surviving fruits are exactly the moved fruits still above the fall-out line, in their order and unflagged; lives fall by the number of penalised falls, by none in time mode; only the list, lives, screen and board can change |
| Engine.TickFacts | Hand_tracking_fruit_game.jsx:303-344 | countdowns fall by one down to 0; spawnTimer becomes old + 1, or 0 (with one fruit spawned) when old + 1 exceeds this frame's rate; score, mode and clock are kept; survivors are exactly the moved fruits still on the canvas, in order; each penalised fall costs one life, none in time mode; consistency is kept |
| Engine.SpawnsEvery56Frames | Hand_tracking_fruit_game.jsx:314-322 | without slow motion or frenzy, after n frames from counter s the counter is (s + n) mod 56 and (s + n) div 56 fruits have spawned: one spawn every 56 frames |
| Engine.FrenzyFrameAddsNoBomb | Hand_tracking_fruit_game.jsx:376-379 | a frame during frenzy never increases the number of bombs |
| Engine.SpawnCadence | Hand_tracking_fruit_game.jsx:314-317 | the rate is 6 in frenzy (which wins), 33 in slow motion alone, and 55 otherwise |
| Engine.SliceOutcome | Hand_tracking_fruit_game.jsx:428-463 | the slice splices out exactly that fruit. In time mode the score moves by the table's score for the category. In survival a bomb takes a life, no points, and ends the round on the last life, putting the round's score on the board; no other slice changes the screen or the board. Ice and giant reset their timers to 300. Consistency is kept |
| Engine.SliceSplices | Hand_tracking_fruit_game.jsx:428 | the splice removes the fruit at k and shifts the later fruits down by one |
| Engine.SweepFacts | Hand_tracking_fruit_game.jsx:404-411 | a sweep only removes fruits, keeping the rest in order; it never gives back a life, leaves the screen as it was unless it ends the round with no life left, keeps consistency, and in time mode costs no life and does not end the round |
| Engine.Survivors | Hand_tracking_fruit_game.jsx:405-411 | what a sweep keeps, stated on the list alone: a missed fruit stays, a hit fruit goes and the fruit shifted into its slot stays untested; never longer than the list |
| Engine.SweepIsSurvivors | Hand_tracking_fruit_game.jsx:405-411 | a sweep from index k leaves the fruits before k and keeps exactly the survivors of the rest: every visited fruit under the blade is sliced, every visited fruit it misses stays |
| Engine.DetectIsSurvivors | Hand_tracking_fruit_game.jsx:393-411 | past the two gates, detection leaves exactly the survivors of the whole list under the last trail segment |
| Engine.HitThenMissKeepsMiss | Hand_tracking_fruit_game.jsx:405-411 | on a screen of a fruit under the blade then one it misses, the first is sliced and the second kept |
| Engine.SweepKeepsUnhit | Hand_tracking_fruit_game.jsx:405-411 | every fruit the blade misses survives the sweep, so every fruit that is gone was hit |
| Engine.SweepMissingAll | Hand_tracking_fruit_game.jsx:404-411 | a blade that touches no fruit changes nothing |
| Engine.SweepPastEnd | Hand_tracking_fruit_game.jsx:404 | indices past the current end of the shrinking list are skipped |
| Engine.SweepSkipsShifted | Hand_tracking_fruit_game.jsx:404-411 | when every fruit is under the blade, the fruit shifted into a sliced fruit's slot escapes: from k on, only the fruits at odd offsets survive |
| Engine.EveryOtherSurvives | Hand_tracking_fruit_game.jsx:393-412 | if detection passes its gates and every fruit is hit, exactly the fruits at odd indices survive |
| Engine.DetectFacts | Hand_tracking_fruit_game.jsx:393-411 | detection keeps consistency and only removes fruits, and only fruits under the last trail segment; it is a no-op with fewer than two samples or a last segment shorter than 3 |
| Engine.FrameKeepsConsistent | Hand_tracking_fruit_game.jsx:264-268 | a whole frame keeps the record consistent |
| Engine.EndingTwiceKeepsOneEntry | Hand_tracking_fruit_game.jsx:152-164 | a second endGame in the same round supersedes the first: the board holds the round once, with its latest score, sorted |
| Engine.ClockRunsDown | Hand_tracking_fruit_game.jsx:175-181 | with t seconds left, t-1 seconds only count down and the t-th ends the round at 0 and records it |
| Engine.TimeRoundLastsSixtySeconds | Hand_tracking_fruit_game.jsx:171-185 | a fresh time-mode round is still on after 59 seconds and over after 60, with its entry on the board |
| Engine.BombPenaltyNotShownAsWritten | Hand_tracking_fruit_game.jsx:436-439 | as written, an apple then a bomb shows 10 while the board records -40 |
| Engine.ShownScoreIsRecordedScore | Hand_tracking_fruit_game.jsx:424-464 | with the corrected bomb branch, every slice keeps the displayed score equal to the score, so a round ended right after it records the score on display |
| Engine.SweepScoresAfterRoundEnds | Hand_tracking_fruit_game.jsx:405-411 | in survival, a sweep over a bomb on the last life, any fruit, and an apple ends the round recording 0 and then still slices the apple: the record shows 10 while the board keeps 0 |
| Engine.AppleThenBombInTimeMode | Hand_tracking_fruit_game.jsx:428-463 | in time mode an apple then a bomb nets -40 and empties the screen |
| Engine.ThreeBombsEndSurvival | Hand_tracking_fruit_game.jsx:429-435 | three bombs in a fresh survival round leave 2, 1, then 0 lives, and the third ends the round with its entry on the board |
| Engine.IceRestartsSlowMotion | Hand_tracking_fruit_game.jsx:442-446 | slicing ice with 100 frames of slow motion left resets it to 300 rather than adding |

## Findings

| source | as written | input that shows it | evidently intended | confidence | as-written member | corrected member |
|---|---|---|---|---|---|---|
| Hand_tracking_fruit_game.jsx:436-439 | the time-mode bomb penalty changes `entitiesRef.current.score` but, unlike the giant and plain branches, does not call `setScore`, so the HUD (line 626) and the result screen (line 750) keep showing the old score while `endGame` records the new one | time mode: slice an apple, then a bomb, then let the clock run out. The screen shows 10 and the leaderboard records -40 | `setScore(entities.score)` after the penalty, as in the other scoring branches | high (not executed) | Engine.BombPenaltyNotShownAsWritten | Engine.ShownScoreIsRecordedScore |

`Engine.SliceEffectAsWritten` is the branch as written. `Engine.SliceEffect`,
and with it `Engine.Game.HandleSlice`, pass the penalty on to the displayed
score (`shownScore`). `Engine.Consistent` includes `shownScore == score`, and
every frame and slice keeps it. This equality does not make the result
screen agree with the board in every case: a slice later in the same sweep
still scores after a hit has ended the round (`SweepScoresAfterRoundEnds`),
and the model keeps that as the code does it.

## Left out

- Camera access, MediaPipe loading and hand detection are out of the model.
  A frame's detection is an input (`Detection`): nothing, or a fingertip point
  with the `Math.atan2` heading of its move. The video's `readyState` check is
  part of "nothing".
- Canvas size: the video's size is passed to each frame as `width` and
  `height`. Canvas resizing is not modelled.
- `Math.random`: the six draws of `spawnFruit` are an input (`SpawnDraws`),
  taken as given values in [0, 1).
- Leaderboard storage: `localStorage` is out. The constructor receives the
  saved board. The date string in each entry is out.
- Canvas drawing, the scene filters, the HUD and the markup are out.
- Particles, floating texts, `createExplosion` and `createFloatingText` are
  out. They never feed back into score, lives or timers.
- Engine.Move: motion is exact real arithmetic, not IEEE doubles. No rounding
  is modelled.
- Geometry.Hit: `Math.hypot` comparisons are stated on squares. For
  non-negative values this is equivalent over the reals.
- Scheduling: `requestAnimationFrame` and `setInterval` are out. A frame is
  one call of `Engine.Animate`, and a second is one call of
  `Engine.Game.SecondElapsed`. The interval only runs while a time-mode round
  is played, which is that method's precondition.
- React's render and closure mechanics are out. The leaderboard captured by
  the round's `endGame` closures is the field `roundBoard`, set when the
  round starts.
- `setLives`: the displayed lives always equal `lives` after `syncLives`, so
  they are not a separate field.
- Geometry.SegmentNoFartherThanEnds: stated only for segments at least 3
  long, the segments that pass the speed gate. Shorter segments never reach
  the hit test.
- Geometry.EndpointWithinReachHits: stated under the same speed-gate
  precondition.
