# LoopityGame: the GameManager timing and state engine in Dafny

This project models `GameManager`, the core of a reflex game. A marker sweeps a ring of loop
pieces one slot at a time. It moves each time the game clock passes a deadline, and the interval
between moves shrinks. The player must press a key while the marker is on a randomly drawn
target piece. A hit reverses the sweep, draws a new target, shrinks the interval and awards
points. A miss ends the game. After that, Return fades the scene out and reloads it, once.

The model has four modules:

- `Wheel` (wheel.dfy) holds the ring. `Step` moves the marker one slot and wraps at both ends.
  `Highlight` gives the colours after `SetPieceColor`. Lemmas cover full sweeps and the single
  highlighted slot.
- `Difficulty` (difficulty.dfy) holds the arithmetic:
  - the point multiplier worked out from the two sliders;
  - the interval shrink on a hit, including the evaluation order of the C# statement
    `loopCooldown -= loopCooldown *= decreaseCoolDownPercentage`;
  - the points awarded on a hit.

  C# floats are modelled as `real`.
- `Session` (session.dfy) describes the state machine as pure functions over a `GameState` value
  that holds every field the class updates:
  - `AfterStart` is `StartGame`;
  - `AfterWheel` is `LoopThroughWheel`;
  - `AfterPress` is `CheckPosition`;
  - `AfterFrame` is one call of `Update`, and `Run` is a sequence of frames.

  Its lemmas cover the phase order (Idle, Running, Ended, RestartPending), the frame guards,
  the once-only fade, monotone points and interval, and two end-to-end scenarios.
- `Game` (game_manager.dfy) holds the class `GameManager`. Its fields and methods mirror the C#
  class. Each method updates the fields in place, with the same branches, and is proved to leave
  `State()` where the matching `Session` function says. `SetPieceColor` rewrites the colour
  array in a loop.

Three inputs come from outside the class. Each becomes a parameter of `Update`:

- the game clock (`Time.time`) becomes `now`;
- the keyboard (`Input.anyKeyDown`, `Input.GetKeyDown(KeyCode.Return)`) becomes `anyKeyDown`
  and `returnDown`;
- the random target (`Random.Range(0, piecePrefabs.Length)`) becomes `draw`, with
  `0 <= draw < piecePrefabCount`.

`StartGame` also takes the slider values and maxima as parameters.

The code has these behaviours, and the model follows them:

- The wheel moves only when `now > nextLoopTime`, a strict test. A long pause between frames
  still moves it at most one slot.
- The 0.1 test guards only the shrink. One shrink can take the interval below 0.1, for example
  0.2 with decay 0.9 gives 0.02 (`ShrinkCanPassFloor`). After that the interval no longer changes.
- The target is drawn over the number of piece prefabs, not over the ring. A target outside the
  ring can never be hit (`TargetOffRingIsMissed`).
- `StartGame` has no guard on the phase. It resets neither the marker, nor its direction, nor
  the deadline, nor the points.
- Return also counts as "any key". A miss made by pressing Return ends the game and starts the
  fade in the same frame. The session then goes from Running straight to RestartPending
  (`MissWithReturnFadesAtOnce`).

## Model

| member | source | states |
|---|---|---|
| `Wheel.Step` | LudumDare47/Assets/Scripts/GameManager.cs:151-176 | from a slot on the ring the next slot is on the ring, and differs from it when the ring has more than one slot |
| `Wheel.StepUndo` | LudumDare47/Assets/Scripts/GameManager.cs:151-176 | a step in the opposite direction undoes a step (wrap forward at the last slot, wrap backward at slot 0) |
| `Wheel.StepsShift` | LudumDare47/Assets/Scripts/GameManager.cs:151-176 | one step followed by k steps is k + 1 steps |
| `Wheel.SweepPosition` | LudumDare47/Assets/Scripts/GameManager.cs:151-176 | after k <= n steps the marker is the start shifted by k, wrapped once: forward i+k or i+k-n, backward i-k or i-k+n |
| `Wheel.FullSweep` | LudumDare47/Assets/Scripts/GameManager.cs:151-176 | n steps in one direction visit every slot exactly once and return to the start |
| `Wheel.Highlight` | LudumDare47/Assets/Scripts/GameManager.cs:86-99 | the colours have the ring's length, slot k has the player colour and every other slot the default colour |
| `Wheel.HighlightExactlyOne` | LudumDare47/Assets/Scripts/GameManager.cs:86-99 | with distinct colours exactly one slot is highlighted when k is on the ring, none otherwise |
| `Difficulty.PointMultiplier` | LudumDare47/Assets/Scripts/GameManager.cs:136-138 | the multiplier times the sum of the maxima is the sum of the slider values; it lies in [0, 1] for sliders within their ranges and is 1 exactly at both maxima |
| `Difficulty.MultiplierMonotone` | LudumDare47/Assets/Scripts/GameManager.cs:136-138 | for maxima with a positive sum, raising either slider never lowers the multiplier |
| `Difficulty.HalfSlidersHalfMultiplier` | LudumDare47/Assets/Scripts/GameManager.cs:134-138 | sliders 0.5 and 0.5 with maxima 1 and 1 give a multiplier of 0.5 |
| `Difficulty.ShrinkCooldown` | LudumDare47/Assets/Scripts/GameManager.cs:197-200 | above 0.1 the interval becomes interval * (1 - decay) (the C# compound reads the old value first); at or below 0.1 it is kept |
| `Difficulty.ShrinkStep` | LudumDare47/Assets/Scripts/GameManager.cs:197-200 | with decay in [0, 1) a hit never lengthens a positive interval nor makes it non-positive |
| `Difficulty.ShrinkBounds` | LudumDare47/Assets/Scripts/GameManager.cs:197-200 | for a positive start and decay in [0, 1): over any number of hits the interval stays in (0, start], never below min(start, 0.1 * (1 - decay)), and is fixed once at or below 0.1 |
| `Difficulty.ShrinkCanPassFloor` | LudumDare47/Assets/Scripts/GameManager.cs:197-200 | the guard does not make 0.1 a floor: 0.2 with decay 0.9 becomes less than 0.1 |
| `Difficulty.Award` | LudumDare47/Assets/Scripts/GameManager.cs:233 | a hit adds exactly pointsToAdd * (1 + multiplier); with a non-negative award and multiplier >= -1 the points never go down |
| `Difficulty.AwardRepeatedTotal` | LudumDare47/Assets/Scripts/GameManager.cs:233 | k hits at one multiplier add exactly k times the award of one hit |
| `Session.Initial` | LudumDare47/Assets/Scripts/GameManager.cs:11-51 | a fresh GameManager is Idle with marker 0, target 0, no points and deadline 0 |
| `Session.InitialConsistent` | LudumDare47/Assets/Scripts/GameManager.cs:11-51 | the fresh state satisfies the reachable-state invariant when there is a piece prefab |
| `Session.AfterStart` | LudumDare47/Assets/Scripts/GameManager.cs:131-144 | the game is started, the interval and decay are the slider values, the multiplier times the sum of maxima is the sum of values, the target is the draw, and no other field changes |
| `Session.StartRuns` | LudumDare47/Assets/Scripts/GameManager.cs:131-144 | starting from Idle with a draw over the prefabs gives a consistent Running state |
| `Session.AfterWheel` | LudumDare47/Assets/Scripts/GameManager.cs:146-179 | nothing changes unless now > deadline; then the deadline becomes now + interval, the marker takes one Step, only the new slot is highlighted, and the direction and all other fields are unchanged |
| `Session.AfterPress` | LudumDare47/Assets/Scripts/GameManager.cs:188-211 | the game ends exactly when marker != target; a hit sets the target to the draw, negates the direction, shrinks the interval and adds pointsToAdd * (1 + multiplier); a miss changes only the end flag |
| `Session.AfterFrame` | LudumDare47/Assets/Scripts/GameManager.cs:101-123 | a frame never moves the session to an earlier phase; the fade flag stays set and is only set after the game ended and Return went down; the direction changes only on a hit pressed while Running |
| `Session.FrameKeepsConsistent` | LudumDare47/Assets/Scripts/GameManager.cs:101-123 | every frame keeps the reachable-state invariant (flags ordered, marker on the ring, target drawn over the prefabs) |
| `Session.IdleFrameChangesNothing` | LudumDare47/Assets/Scripts/GameManager.cs:101-123 | before StartGame a frame changes no field (only the slider preview runs) |
| `Session.RunningFrame` | LudumDare47/Assets/Scripts/GameManager.cs:103-110 | while Running the wheel steps first and the press is judged against the new slot: the game goes on exactly when no key went down or that slot is the target |
| `Session.EndedFrameOnlyFades` | LudumDare47/Assets/Scripts/GameManager.cs:103-122 | once the game has ended a frame changes nothing but the fade flag, which Return sets |
| `Session.MissWithReturnFadesAtOnce` | LudumDare47/Assets/Scripts/GameManager.cs:107-122 | for a frame Unity can deliver (Return down implies a key down), a miss made with Return ends the game and starts the fade in the same frame |
| `Session.TargetOffRingIsMissed` | LudumDare47/Assets/Scripts/GameManager.cs:188-224 | a target drawn outside the ring makes every press a miss |
| `Session.TicksSweepTheWheel` | LudumDare47/Assets/Scripts/GameManager.cs:101-179 | while Running, keyless frames each past the previous deadline put the marker where `Steps` does after that many steps (so, with `FullSweep`, a sweep of n frames visits every slot once), leaving direction and interval unchanged |
| `Session.FadeAtMostOnce` | LudumDare47/Assets/Scripts/GameManager.cs:117-122 | over any sequence of frames the fade and reload start at most once, and never again once started |
| `Session.PhasesOnlyAdvance` | LudumDare47/Assets/Scripts/GameManager.cs:101-123 | over any sequence of frames the phase never goes back and the invariant is kept |
| `Session.PointsAndIntervalMonotone` | LudumDare47/Assets/Scripts/GameManager.cs:197-233 | with a non-negative award, multiplier >= -1 and decay in [0, 1): over any sequence of frames the points never decrease and a positive interval never grows and stays positive |
| `Session.ScenarioHit` | LudumDare47/Assets/Scripts/GameManager.cs:101-211 | five slots, target 2: frames at times 1 and 2 move the marker 0, 1, 2; the press is a hit, the direction turns, the target is the draw, the interval halves and 15 points are awarded |
| `Session.ScenarioMiss` | LudumDare47/Assets/Scripts/GameManager.cs:101-243 | target 3: the press at slot 2 ends the game; a later press changes nothing; the first Return fades; a second Return changes nothing |
| `Game.GameManager.constructor` | LudumDare47/Assets/Scripts/GameManager.cs:11-76 | the new object's state is `Initial` with the scene's serialized values, and the invariant holds |
| `Game.GameManager.SetPieceColor` | LudumDare47/Assets/Scripts/GameManager.cs:86-99 | the loop rewrites the colour array in place to `Highlight` of the given slot |
| `Game.GameManager.LoopThroughWheel` | LudumDare47/Assets/Scripts/GameManager.cs:146-179 | the new state is `AfterWheel` of the old state |
| `Game.GameManager.CreateNewPiece` | LudumDare47/Assets/Scripts/GameManager.cs:213-224 | only the target changes, to the draw in [0, piecePrefabs.Length) |
| `Game.GameManager.ChangeDirection` | LudumDare47/Assets/Scripts/GameManager.cs:226-229 | only the direction changes, and it is negated |
| `Game.GameManager.IncreasePoints` | LudumDare47/Assets/Scripts/GameManager.cs:231-235 | only the points change, by pointsToAdd + pointsToAdd * pointMultiplier |
| `Game.GameManager.EndGame` | LudumDare47/Assets/Scripts/GameManager.cs:237-243 | only the end flag changes, and it is set |
| `Game.GameManager.CheckPosition` | LudumDare47/Assets/Scripts/GameManager.cs:188-211 | the new state is `AfterPress` of the old state |
| `Game.GameManager.StartGame` | LudumDare47/Assets/Scripts/GameManager.cs:131-144 | the new state is `AfterStart` of the old state, and the invariant is kept |
| `Game.GameManager.Update` | LudumDare47/Assets/Scripts/GameManager.cs:101-123 | the new state is `AfterFrame` of the old state and the invariant is kept; the slider preview runs exactly when the game had not started; the fade starts exactly when the fade flag goes from clear to set |

## Left out

- Unity object work is not modelled: instantiating and destroying the target piece and the hit
  particles, sprite lookups, `SetActive` and `sortingOrder`. These are calls into the engine.
- Audio (`audioManager.Play`), the camera shake coroutine and the animator triggers and plays
  are not modelled. They change no field of the class.
- `ManageUI` and the text of `IncreasePoints` are not modelled. They only format text. `Update`
  reports whether the preview ran in its `refreshPreview` result.
- `LoadSceneDelay` (the one-second wait and `SceneManager.LoadScene`) is not modelled. `Update`
  reports in its `fadeOut` result that the fade started and the reload was scheduled. Only the
  `fadingIn` guard is modelled.
- `Start` is not modelled. It sets both sliders to 0.5 and looks up the audio and camera
  objects. The slider values are parameters of `StartGame`.
- `Random.Range`, `Time.time` and `Input` are parameters. The draw is constrained to
  `[0, piecePrefabs.Length)`, the range `Random.Range` promises.
- IEEE float rounding is not modelled. Intervals, the multiplier, points and times are `real`.
- Game.GameManager.constructor: requires at least one piece prefab. With none, `Random.Range(0, 0)`
  gives 0 and `piecePrefabs[0]` throws, and the model does not follow that exception.
- Game.GameManager.StartGame: requires the two slider maxima not to sum to 0. The float division
  would then give an infinity or NaN, which `real` cannot represent.
- Difficulty.PointMultiplier: requires the two slider maxima not to sum to 0, for the same reason.
- Session.AfterStart: requires the two slider maxima not to sum to 0, for the same reason.
- Difficulty.ShrinkCooldown: compares the interval with 0.1 exactly. The C# code compares the float
  interval with the double literal `.1`, and the float 0.1f widened to double is above 0.1. So an
  interval of exactly 0.1f still shrinks in C# (0.2 with decay 0.5 goes 0.1 then 0.05), while the
  model keeps it at 0.1.
- A `Frame` may have Return down without any key down, which Unity never delivers.
  `UnityFrame` states the real constraint; lemmas that do not mention it hold for every frame,
  including those.
