/**
 * GameManager, the timing and state engine of the reflex game, as a class
 * whose methods update its fields in place the way the C# methods do. Each
 * method is proved to leave the fields where the pure functions of module
 * Session say; the lemmas there state what those functions guarantee.
 *
 * Unity calls (sprites, particles, audio, animators, camera shake, text)
 * are not modelled. Time, input and the random draw are parameters.
 */
module Game {
  import opened Wheel
  import opened Difficulty
  import opened Session

  class GameManager {
    // Inspector settings the code reads but never writes.
    const pointsToAdd: real
    const piecePrefabCount: nat   // piecePrefabs.Length
    const playerColor: Color
    const defaultPieceColor: Color
    /** The colour of each loop piece renderer, in ring order (loopPiecesSr[i].color). */
    const loopPiecesSr: array<Color>

    var gameStarted: bool
    var gameHasEnded: bool
    var fadingIn: bool
    var difficultyMaxValue: real
    var difficultyCurrentValue: real
    var pointMultiplier: real
    var currentPoints: real
    var loopCooldown: real
    var nextLoopTime: real
    var currentIndex: int
    var movingForward: bool
    var decreaseCoolDownPercentage: real
    var pieceIndex: int

    /** The settings as a value. */
    function Config(): Settings
    {
      Settings(pointsToAdd, piecePrefabCount, playerColor, defaultPieceColor)
    }

    /** The fields the methods update, as a value. */
    function State(): GameState
      reads this, loopPiecesSr
    {
      GameState(gameStarted, gameHasEnded, fadingIn, loopPiecesSr[..], currentIndex, movingForward,
                nextLoopTime, loopCooldown, decreaseCoolDownPercentage,
                difficultyMaxValue, difficultyCurrentValue, pointMultiplier, currentPoints, pieceIndex)
    }

    /** The object invariant: the state is one a GameManager can reach. */
    ghost predicate Valid()
      reads this, loopPiecesSr
    {
      Consistent(Config(), State())
    }

    /**
     * A GameManager as the scene loads it: the serialized fields come from
     * the scene (`movingForward` defaults to true there), the others take
     * their C# defaults. There must be at least one piece prefab, or the
     * first target could not be instantiated.
     */
    constructor (pieceColors: seq<Color>, pointsToAdd: real, piecePrefabCount: nat,
                 playerColor: Color, defaultPieceColor: Color,
                 movingForward: bool, loopCooldown: real, decreaseCoolDownPercentage: real)
      requires piecePrefabCount > 0
      ensures Valid() && fresh(loopPiecesSr)
      ensures Config() == Settings(pointsToAdd, piecePrefabCount, playerColor, defaultPieceColor)
      ensures State() == Initial(pieceColors, movingForward, loopCooldown, decreaseCoolDownPercentage)
    {
      this.pointsToAdd := pointsToAdd;
      this.piecePrefabCount := piecePrefabCount;
      this.playerColor := playerColor;
      this.defaultPieceColor := defaultPieceColor;
      loopPiecesSr := new Color[|pieceColors|](i requires 0 <= i < |pieceColors| => pieceColors[i]);
      gameStarted, gameHasEnded, fadingIn := false, false, false;
      difficultyMaxValue, difficultyCurrentValue, pointMultiplier, currentPoints := 0.0, 0.0, 0.0, 0.0;
      this.loopCooldown := loopCooldown;
      nextLoopTime := 0.0;
      currentIndex := 0;
      this.movingForward := movingForward;
      this.decreaseCoolDownPercentage := decreaseCoolDownPercentage;
      pieceIndex := 0;
    }

    /** Gives slot `currentPiece` the player colour and every other slot the default colour. */
    method SetPieceColor(currentPiece: int)
      modifies loopPiecesSr
      ensures loopPiecesSr[..] == Highlight(loopPiecesSr.Length, currentPiece, playerColor, defaultPieceColor)
    {
      for i := 0 to loopPiecesSr.Length
        invariant forall j :: 0 <= j < i ==>
          loopPiecesSr[j] == if j == currentPiece then playerColor else defaultPieceColor
      {
        if i != currentPiece {
          loopPiecesSr[i] := defaultPieceColor;
        } else {
          loopPiecesSr[i] := playerColor;
        }
      }
    }

    /** Moves the marker one slot once the deadline has strictly passed. */
    method LoopThroughWheel(now: real)
      modifies this, loopPiecesSr
      ensures State() == AfterWheel(Config(), old(State()), now)
    {
      if now > nextLoopTime {
        nextLoopTime := now + loopCooldown;
        if movingForward {
          if currentIndex < loopPiecesSr.Length - 1 {
            currentIndex := currentIndex + 1;
            SetPieceColor(currentIndex);
          } else {
            currentIndex := 0;
            SetPieceColor(currentIndex);
          }
        } else {
          if currentIndex > 0 {
            currentIndex := currentIndex - 1;
            SetPieceColor(currentIndex);
          } else {
            currentIndex := loopPiecesSr.Length - 1;
            SetPieceColor(currentIndex);
          }
        }
      }
    }

    /** Draws the next target; `draw` stands for Random.Range(0, piecePrefabs.Length). */
    method CreateNewPiece(draw: int)
      requires 0 <= draw < piecePrefabCount
      modifies this
      ensures State() == old(State()).(pieceIndex := draw)
    {
      pieceIndex := draw;
    }

    method ChangeDirection()
      modifies this
      ensures State() == old(State()).(movingForward := !old(movingForward))
    {
      movingForward := !movingForward;
    }

    method IncreasePoints()
      modifies this
      ensures State() == old(State()).(currentPoints := Award(old(currentPoints), pointsToAdd, pointMultiplier))
      ensures currentPoints == old(currentPoints) + pointsToAdd + pointsToAdd * pointMultiplier
    {
      currentPoints := currentPoints + (pointsToAdd + pointsToAdd * pointMultiplier);
    }

    method EndGame()
      modifies this
      ensures State() == old(State()).(gameHasEnded := true)
    {
      gameHasEnded := true;
    }

    /** Judges a press: a hit exactly when the marker is on the target, otherwise the game ends. */
    method CheckPosition(draw: int)
      requires 0 <= draw < piecePrefabCount
      modifies this
      ensures State() == AfterPress(Config(), old(State()), draw)
    {
      if currentIndex == pieceIndex {
        CreateNewPiece(draw);
        ChangeDirection();
        if loopCooldown > 0.1 {
          // `loopCooldown -= loopCooldown *= decreaseCoolDownPercentage`:
          // the left operand is read before the inner assignment.
          var lhs := loopCooldown;
          loopCooldown := loopCooldown * decreaseCoolDownPercentage;
          loopCooldown := lhs - loopCooldown;
        }
        IncreasePoints();
      } else {
        EndGame();
      }
    }

    /**
     * Reads the two sliders (values and maxima), sets the interval, its
     * decay and the point multiplier, starts the game and draws the first
     * target. The marker, its direction, the deadline and the points are
     * left as they are.
     */
    method StartGame(loopDelay: real, loopDelayMax: real, speed: real, speedMax: real, draw: int)
      requires Valid()
      requires loopDelayMax + speedMax != 0.0 && 0 <= draw < piecePrefabCount
      modifies this
      ensures Valid()
      ensures State() == AfterStart(Config(), old(State()), loopDelay, loopDelayMax, speed, speedMax, draw)
    {
      loopCooldown := loopDelay;
      decreaseCoolDownPercentage := speed;
      difficultyMaxValue := loopDelayMax + speedMax;
      difficultyCurrentValue := loopDelay + speed;
      pointMultiplier := difficultyCurrentValue / difficultyMaxValue;
      gameStarted := true;
      CreateNewPiece(draw);
    }

    /**
     * One frame. `refreshPreview` says the slider preview (ManageUI) ran,
     * which happens exactly while the game has not started; `fadeOut` says
     * the fade-out started and the reload of the scene was scheduled, which
     * happens at most once.
     */
    method Update(now: real, anyKeyDown: bool, returnDown: bool, draw: int)
      returns (refreshPreview: bool, fadeOut: bool)
      requires Valid()
      requires 0 <= draw < piecePrefabCount
      modifies this, loopPiecesSr
      ensures Valid()
      ensures State() == AfterFrame(Config(), old(State()), Frame(now, anyKeyDown, returnDown, draw))
      ensures refreshPreview == !old(gameStarted)
      ensures fadeOut == (fadingIn && !old(fadingIn))
    {
      FrameKeepsConsistent(Config(), State(), Frame(now, anyKeyDown, returnDown, draw));
      if gameStarted && !gameHasEnded {
        LoopThroughWheel(now);
      }
      if anyKeyDown && gameStarted && !gameHasEnded {
        CheckPosition(draw);
      }
      refreshPreview := !gameStarted;
      fadeOut := false;
      if gameHasEnded && returnDown && !fadingIn {
        fadingIn := true;
        fadeOut := true;
      }
    }
  }
}
