/**
 * The state machine of GameManager as pure functions over a value that
 * holds every field the class updates. One call of Update is one Frame;
 * GameManager in game_manager.dfy runs the same steps in place and proves
 * that its fields end up where these functions say.
 */
module Session {
  import opened Wheel
  import opened Difficulty

  /** Inspector settings of a GameManager that its code reads but never writes. */
  datatype Settings = Settings(
    pointsToAdd: real,
    piecePrefabCount: nat,   // the length of piecePrefabs, the range of the target draw
    playerColor: Color,
    defaultPieceColor: Color)

  /** The fields a GameManager updates while it runs. */
  datatype GameState = GameState(
    gameStarted: bool,
    gameHasEnded: bool,
    fadingIn: bool,
    pieceColors: seq<Color>,   // the colour of each loop piece renderer, in ring order
    currentIndex: int,
    movingForward: bool,
    nextLoopTime: real,
    loopCooldown: real,
    decreaseCoolDownPercentage: real,
    difficultyMaxValue: real,
    difficultyCurrentValue: real,
    pointMultiplier: real,
    currentPoints: real,
    pieceIndex: int)

  /**
   * What one call of Update sees from outside: the game time, whether any
   * key and whether Return went down this frame, and the value the random
   * draw of a new target gives if a hit happens this frame.
   */
  datatype Frame = Frame(now: real, anyKeyDown: bool, returnDown: bool, draw: int)

  /** A frame Unity can deliver: Return going down is also a key going down. */
  predicate UnityFrame(f: Frame)
  {
    f.returnDown ==> f.anyKeyDown
  }

  /** The four phases the three session flags encode. */
  datatype Phase = Idle | Running | Ended | RestartPending

  function PhaseOf(s: GameState): Phase
  {
    if !s.gameStarted then Idle
    else if !s.gameHasEnded then Running
    else if !s.fadingIn then Ended
    else RestartPending
  }

  /** The order in which a session passes through its phases. */
  function Rank(p: Phase): nat
  {
    match p
    case Idle => 0
    case Running => 1
    case Ended => 2
    case RestartPending => 3
  }

  /**
   * A GameManager as the scene creates it: the serialized fields come from
   * the scene, every other field has its C# default.
   */
  function Initial(pieceColors: seq<Color>, movingForward: bool, loopCooldown: real, decay: real): (s: GameState)
    ensures PhaseOf(s) == Idle
    ensures s.currentIndex == 0 && s.pieceIndex == 0 && s.currentPoints == 0.0 && s.nextLoopTime == 0.0
  {
    GameState(false, false, false, pieceColors, 0, movingForward, 0.0, loopCooldown, decay,
              0.0, 0.0, 0.0, 0.0, 0)
  }

  /**
   * What holds of every state a GameManager reaches: the game can only have
   * ended once it started, the fade only starts once it ended, the marker is
   * on the ring and the target was drawn over the piece prefabs.
   */
  predicate Consistent(cfg: Settings, s: GameState)
  {
    (s.gameHasEnded ==> s.gameStarted) &&
    (s.fadingIn ==> s.gameHasEnded) &&
    (|s.pieceColors| > 0 ==> 0 <= s.currentIndex < |s.pieceColors|) &&
    0 <= s.pieceIndex < cfg.piecePrefabCount
  }

  lemma InitialConsistent(cfg: Settings, pieceColors: seq<Color>, movingForward: bool, loopCooldown: real, decay: real)
    requires cfg.piecePrefabCount > 0
    ensures Consistent(cfg, Initial(pieceColors, movingForward, loopCooldown, decay))
  {
  }

  /**
   * StartGame: the interval and its decay are the two slider values, the
   * multiplier their sum over the sum of the maxima, the game is started
   * and a first target is drawn. Nothing else is reset.
   */
  function AfterStart(cfg: Settings, s: GameState, loopDelay: real, loopDelayMax: real,
                      speed: real, speedMax: real, draw: int): (t: GameState)
    requires loopDelayMax + speedMax != 0.0
    ensures t.gameStarted
    ensures t.loopCooldown == loopDelay && t.decreaseCoolDownPercentage == speed
    ensures t.pointMultiplier * (loopDelayMax + speedMax) == loopDelay + speed
    ensures t.pieceIndex == draw
    ensures t == s.(gameStarted := true, loopCooldown := t.loopCooldown,
                    decreaseCoolDownPercentage := t.decreaseCoolDownPercentage,
                    difficultyMaxValue := t.difficultyMaxValue, difficultyCurrentValue := t.difficultyCurrentValue,
                    pointMultiplier := t.pointMultiplier, pieceIndex := t.pieceIndex)
  {
    s.(loopCooldown := loopDelay,
       decreaseCoolDownPercentage := speed,
       difficultyMaxValue := loopDelayMax + speedMax,
       difficultyCurrentValue := loopDelay + speed,
       pointMultiplier := PointMultiplier(loopDelay, loopDelayMax, speed, speedMax),
       gameStarted := true,
       pieceIndex := draw)
  }

  /** Starting from Idle with a target drawn over the prefabs gives a consistent running game. */
  lemma StartRuns(cfg: Settings, s: GameState, loopDelay: real, loopDelayMax: real,
                  speed: real, speedMax: real, draw: int)
    requires Consistent(cfg, s) && PhaseOf(s) == Idle
    requires loopDelayMax + speedMax != 0.0 && 0 <= draw < cfg.piecePrefabCount
    ensures PhaseOf(AfterStart(cfg, s, loopDelay, loopDelayMax, speed, speedMax, draw)) == Running
    ensures Consistent(cfg, AfterStart(cfg, s, loopDelay, loopDelayMax, speed, speedMax, draw))
  {
  }

  /**
   * LoopThroughWheel: once the game time is strictly past the deadline the
   * marker moves one slot in its direction, the deadline moves to one
   * interval after now and the new slot alone is highlighted; before that
   * nothing changes.
   */
  function AfterWheel(cfg: Settings, s: GameState, now: real): (t: GameState)
    ensures now <= s.nextLoopTime ==> t == s
    ensures now > s.nextLoopTime ==> t.nextLoopTime == now + s.loopCooldown
    ensures now > s.nextLoopTime ==> t.currentIndex == Step(s.currentIndex, |s.pieceColors|, s.movingForward)
    ensures now > s.nextLoopTime ==> t.pieceColors == Highlight(|s.pieceColors|, t.currentIndex, cfg.playerColor, cfg.defaultPieceColor)
    ensures t == s.(nextLoopTime := t.nextLoopTime, currentIndex := t.currentIndex, pieceColors := t.pieceColors)
    ensures |t.pieceColors| == |s.pieceColors|
    ensures 0 <= s.currentIndex < |s.pieceColors| ==> 0 <= t.currentIndex < |t.pieceColors|
  {
    if now > s.nextLoopTime then
      var next := Step(s.currentIndex, |s.pieceColors|, s.movingForward);
      s.(nextLoopTime := now + s.loopCooldown,
         currentIndex := next,
         pieceColors := Highlight(|s.pieceColors|, next, cfg.playerColor, cfg.defaultPieceColor))
    else
      s
  }

  /**
   * CheckPosition: a press is a hit exactly when the marker is on the
   * target. A hit draws a new target, reverses the direction, shrinks the
   * interval and awards points; a miss only ends the game.
   */
  function AfterPress(cfg: Settings, s: GameState, draw: int): (t: GameState)
    ensures t.gameHasEnded == (s.gameHasEnded || s.currentIndex != s.pieceIndex)
    ensures s.currentIndex == s.pieceIndex ==>
      t.pieceIndex == draw &&
      t.movingForward == !s.movingForward &&
      t.loopCooldown == ShrinkCooldown(s.loopCooldown, s.decreaseCoolDownPercentage) &&
      t.currentPoints - s.currentPoints == cfg.pointsToAdd * (1.0 + s.pointMultiplier)
    ensures s.currentIndex != s.pieceIndex ==> t == s.(gameHasEnded := true)
    ensures t == s.(gameHasEnded := t.gameHasEnded, pieceIndex := t.pieceIndex, movingForward := t.movingForward,
                    loopCooldown := t.loopCooldown, currentPoints := t.currentPoints)
  {
    if s.currentIndex == s.pieceIndex then
      s.(pieceIndex := draw,
         movingForward := !s.movingForward,
         loopCooldown := ShrinkCooldown(s.loopCooldown, s.decreaseCoolDownPercentage),
         currentPoints := Award(s.currentPoints, cfg.pointsToAdd, s.pointMultiplier))
    else
      s.(gameHasEnded := true)
  }

  /**
   * Update, one frame: while the game runs the wheel steps and then a press
   * is judged against the marker's new slot; once the game has ended, the
   * first Return starts the fade. The preview of the sliders (while not
   * started) changes no field.
   */
  function AfterFrame(cfg: Settings, s: GameState, f: Frame): (t: GameState)
    ensures Rank(PhaseOf(t)) >= Rank(PhaseOf(s))
    ensures s.fadingIn ==> t.fadingIn
    ensures t.fadingIn && !s.fadingIn ==> t.gameHasEnded && f.returnDown
    ensures t.movingForward != s.movingForward ==>
      f.anyKeyDown && PhaseOf(s) == Running && AfterWheel(cfg, s, f.now).currentIndex == s.pieceIndex
  {
    var stepped := if s.gameStarted && !s.gameHasEnded then AfterWheel(cfg, s, f.now) else s;
    var judged := if f.anyKeyDown && stepped.gameStarted && !stepped.gameHasEnded
                  then AfterPress(cfg, stepped, f.draw) else stepped;
    if judged.gameHasEnded && f.returnDown && !judged.fadingIn then judged.(fadingIn := true) else judged
  }

  /** Every frame keeps a consistent state consistent. */
  lemma FrameKeepsConsistent(cfg: Settings, s: GameState, f: Frame)
    requires Consistent(cfg, s) && 0 <= f.draw < cfg.piecePrefabCount
    ensures Consistent(cfg, AfterFrame(cfg, s, f))
  {
  }

  /** Before StartGame a frame changes nothing. */
  lemma IdleFrameChangesNothing(cfg: Settings, s: GameState, f: Frame)
    requires Consistent(cfg, s) && PhaseOf(s) == Idle
    ensures AfterFrame(cfg, s, f) == s
  {
  }

  /**
   * While the game runs, the wheel steps first and a press is then judged
   * against the slot the marker has just reached: the game goes on exactly
   * when no key went down or that slot is the target.
   */
  lemma RunningFrame(cfg: Settings, s: GameState, f: Frame)
    requires PhaseOf(s) == Running
    ensures var stepped := AfterWheel(cfg, s, f.now);
      AfterFrame(cfg, s, f).currentIndex == stepped.currentIndex &&
      (PhaseOf(AfterFrame(cfg, s, f)) == Running <==> !f.anyKeyDown || stepped.currentIndex == s.pieceIndex)
  {
  }

  /**
   * Once the game has ended, a frame changes nothing but the fade flag,
   * which Return sets.
   */
  lemma EndedFrameOnlyFades(cfg: Settings, s: GameState, f: Frame)
    requires s.gameHasEnded
    ensures AfterFrame(cfg, s, f) == s.(fadingIn := s.fadingIn || f.returnDown)
  {
  }

  /**
   * Return counts as a press: a miss made with Return ends the game and
   * starts the fade in the same frame, so the session goes straight from
   * Running to RestartPending.
   */
  lemma MissWithReturnFadesAtOnce(cfg: Settings, s: GameState, f: Frame)
    requires PhaseOf(s) == Running && UnityFrame(f) && f.returnDown
    requires AfterWheel(cfg, s, f.now).currentIndex != s.pieceIndex
    ensures PhaseOf(AfterFrame(cfg, s, f)) == RestartPending
  {
  }

  /**
   * The target is drawn over the piece prefabs, not over the ring: when it
   * falls outside the ring, the next press is a miss whatever the timing.
   */
  lemma TargetOffRingIsMissed(cfg: Settings, s: GameState, f: Frame)
    requires Consistent(cfg, s) && PhaseOf(s) == Running && f.anyKeyDown
    requires |s.pieceColors| > 0 && s.pieceIndex >= |s.pieceColors|
    ensures AfterFrame(cfg, s, f).gameHasEnded
  {
  }

  /** The state after a sequence of frames. */
  function Run(cfg: Settings, s: GameState, frames: seq<Frame>): GameState
    decreases |frames|
  {
    if frames == [] then s else Run(cfg, AfterFrame(cfg, s, frames[0]), frames[1..])
  }

  /** How many of the frames start the fade (and schedule the scene reload). */
  function FadeCount(cfg: Settings, s: GameState, frames: seq<Frame>): nat
    decreases |frames|
  {
    if frames == [] then 0
    else
      var t := AfterFrame(cfg, s, frames[0]);
      (if !s.fadingIn && t.fadingIn then 1 else 0) + FadeCount(cfg, t, frames[1..])
  }

  /** Whatever the frames, the fade and the reload start at most once, and never again once started. */
  lemma {:induction false} FadeAtMostOnce(cfg: Settings, s: GameState, frames: seq<Frame>)
    ensures FadeCount(cfg, s, frames) <= if s.fadingIn then 0 else 1
    decreases |frames|
  {
    if frames != [] {
      FadeAtMostOnce(cfg, AfterFrame(cfg, s, frames[0]), frames[1..]);
    }
  }

  /** The session never returns to an earlier phase, and a consistent state stays consistent. */
  lemma {:induction false} PhasesOnlyAdvance(cfg: Settings, s: GameState, frames: seq<Frame>)
    requires Consistent(cfg, s)
    requires forall i :: 0 <= i < |frames| ==> 0 <= frames[i].draw < cfg.piecePrefabCount
    ensures Rank(PhaseOf(Run(cfg, s, frames))) >= Rank(PhaseOf(s))
    ensures Consistent(cfg, Run(cfg, s, frames))
    decreases |frames|
  {
    if frames != [] {
      FrameKeepsConsistent(cfg, s, frames[0]);
      PhasesOnlyAdvance(cfg, AfterFrame(cfg, s, frames[0]), frames[1..]);
    }
  }

  /**
   * With a non-negative base award and a multiplier of at least -1 (the
   * sliders are never negative), the points never go down, and with a decay
   * in [0, 1) a positive interval never grows and stays positive.
   */
  lemma {:induction false} PointsAndIntervalMonotone(cfg: Settings, s: GameState, frames: seq<Frame>)
    requires cfg.pointsToAdd >= 0.0 && s.pointMultiplier >= -1.0
    requires s.loopCooldown > 0.0 && 0.0 <= s.decreaseCoolDownPercentage < 1.0
    ensures Run(cfg, s, frames).currentPoints >= s.currentPoints
    ensures 0.0 < Run(cfg, s, frames).loopCooldown <= s.loopCooldown
    decreases |frames|
  {
    if frames != [] {
      var t := AfterFrame(cfg, s, frames[0]);
      ShrinkStep(s.loopCooldown, s.decreaseCoolDownPercentage);
      ProductSign(cfg.pointsToAdd, 1.0 + s.pointMultiplier);
      assert t.pointMultiplier == s.pointMultiplier;
      assert t.decreaseCoolDownPercentage == s.decreaseCoolDownPercentage;
      PointsAndIntervalMonotone(cfg, t, frames[1..]);
    }
  }

  /**
   * The frames carry no key press, and each comes strictly after the deadline
   * the previous one set (the first after `deadline`), so the wheel steps in
   * every one of them.
   */
  predicate TicksPastDeadline(deadline: real, cooldown: real, frames: seq<Frame>)
    decreases |frames|
  {
    frames == [] ||
    (!frames[0].anyKeyDown && frames[0].now > deadline &&
     TicksPastDeadline(frames[0].now + cooldown, cooldown, frames[1..]))
  }

  /**
   * While the game runs and no key is pressed, frames that each pass the
   * deadline move the marker one slot per frame: after them it is where
   * `Steps` puts it, so by `FullSweep` as many such frames as there are
   * slots visit every slot once and bring it back. The direction and the
   * interval stay as they were.
   */
  lemma {:induction false} TicksSweepTheWheel(cfg: Settings, s: GameState, frames: seq<Frame>)
    requires PhaseOf(s) == Running
    requires TicksPastDeadline(s.nextLoopTime, s.loopCooldown, frames)
    ensures Run(cfg, s, frames).currentIndex == Steps(s.currentIndex, |s.pieceColors|, s.movingForward, |frames|)
    ensures PhaseOf(Run(cfg, s, frames)) == Running
    ensures Run(cfg, s, frames).movingForward == s.movingForward
    ensures Run(cfg, s, frames).loopCooldown == s.loopCooldown
    decreases |frames|
  {
    if frames != [] {
      var t := AfterFrame(cfg, s, frames[0]);
      assert t == AfterWheel(cfg, s, frames[0].now);
      TicksSweepTheWheel(cfg, t, frames[1..]);
      StepsShift(s.currentIndex, |s.pieceColors|, s.movingForward, |frames| - 1);
    }
  }

  /**
   * A running game on five slots, marker on slot 0 moving forward, deadline
   * 0, interval 0.5, decay 0.5, multiplier 0.5, target 2: the frames at
   * times 1 and 2 move the marker 0 -> 1 -> 2, and the key pressed in the
   * second frame is a hit: the direction turns backward, the new target is
   * the drawn 4, the interval halves and 10 * (1 + 0.5) points are awarded.
   */
  lemma ScenarioHit(cfg: Settings, s: GameState)
    requires cfg.pointsToAdd == 10.0 && |s.pieceColors| == 5
    requires PhaseOf(s) == Running && s.currentIndex == 0 && s.movingForward && s.pieceIndex == 2
    requires s.nextLoopTime == 0.0 && s.loopCooldown == 0.5 && s.decreaseCoolDownPercentage == 0.5
    requires s.pointMultiplier == 0.5 && s.currentPoints == 0.0
    ensures var t := Run(cfg, s, [Frame(1.0, false, false, 0), Frame(2.0, true, false, 4)]);
      PhaseOf(t) == Running && t.currentIndex == 2 && !t.movingForward && t.pieceIndex == 4 &&
      t.currentPoints == 15.0 && t.loopCooldown == 0.25 && t.nextLoopTime == 2.5
  {
    var s1 := AfterFrame(cfg, s, Frame(1.0, false, false, 0));
    assert s1 == AfterWheel(cfg, s, 1.0);
    assert s1.currentIndex == 1 && s1.nextLoopTime == 1.5;
    var stepped := AfterWheel(cfg, s1, 2.0);
    assert stepped.currentIndex == 2 && stepped.nextLoopTime == 2.5;
    var s2 := AfterFrame(cfg, s1, Frame(2.0, true, false, 4));
    assert s2 == AfterPress(cfg, stepped, 4);
    assert s2.loopCooldown == ShrinkCooldown(0.5, 0.5) == 0.25;
    assert Run(cfg, s, [Frame(1.0, false, false, 0), Frame(2.0, true, false, 4)]) == Run(cfg, s1, [Frame(2.0, true, false, 4)]);
    assert Run(cfg, s1, [Frame(2.0, true, false, 4)]) == Run(cfg, s2, []);
  }

  /**
   * The same game with target 3: the press in the frame that brings the
   * marker to slot 2 is a miss and ends the game; a later press changes
   * nothing, the first Return starts the fade and a second Return changes
   * nothing.
   */
  lemma ScenarioMiss(cfg: Settings, s: GameState)
    requires |s.pieceColors| == 5
    requires PhaseOf(s) == Running && !s.fadingIn && s.currentIndex == 0 && s.movingForward && s.pieceIndex == 3
    requires s.nextLoopTime == 0.0 && s.loopCooldown == 0.5
    ensures var ended := Run(cfg, s, [Frame(1.0, false, false, 0), Frame(2.0, true, false, 4)]);
      PhaseOf(ended) == Ended && ended.currentIndex == 2 &&
      AfterFrame(cfg, ended, Frame(3.0, true, false, 1)) == ended &&
      PhaseOf(AfterFrame(cfg, ended, Frame(4.0, true, true, 1))) == RestartPending &&
      FadeCount(cfg, ended, [Frame(4.0, true, true, 1), Frame(5.0, true, true, 1)]) == 1
  {
    var s1 := AfterFrame(cfg, s, Frame(1.0, false, false, 0));
    assert s1 == AfterWheel(cfg, s, 1.0);
    assert s1.currentIndex == 1 && s1.nextLoopTime == 1.5;
    var stepped := AfterWheel(cfg, s1, 2.0);
    assert stepped.currentIndex == 2;
    var ended := AfterFrame(cfg, s1, Frame(2.0, true, false, 4));
    assert ended == AfterPress(cfg, stepped, 4);
    assert Run(cfg, s, [Frame(1.0, false, false, 0), Frame(2.0, true, false, 4)]) == Run(cfg, s1, [Frame(2.0, true, false, 4)]);
    assert Run(cfg, s1, [Frame(2.0, true, false, 4)]) == Run(cfg, ended, []);
    EndedFrameOnlyFades(cfg, ended, Frame(3.0, true, false, 1));
    var faded := AfterFrame(cfg, ended, Frame(4.0, true, true, 1));
    EndedFrameOnlyFades(cfg, ended, Frame(4.0, true, true, 1));
    EndedFrameOnlyFades(cfg, faded, Frame(5.0, true, true, 1));
    assert FadeCount(cfg, faded, [Frame(5.0, true, true, 1)]) == 0;
  }
}
