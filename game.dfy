/**
 * The game session: the state the page keeps between frames, and the
 * handlers that change it (setup, one frame's simulation step, game over,
 * the start and restart buttons, a click anywhere, a window resize).
 */
module FlappyBird {
  import opened Rules
  import opened Field

  /** The three random draws setup makes are each in [0, 1). */
  predicate Draws(rs: seq<real>)
  {
    |rs| == 3 && forall k :: 0 <= k < |rs| ==> 0.0 <= rs[k] < 1.0
  }

  /** The part of the game state the walk over the pipes changes. */
  datatype WalkState = WalkState(pipes: seq<Pipe>, score: int, best: int, stored: int, playing: bool)

  /**
   * The walk's step for one pipe entry at position `at` of the current
   * queue, with the bird at (`birdX`, `flyHeight`): the entry moves; if it
   * passes the bird the score goes up by one and the best score follows and
   * is stored; the queue is revisited (recycling if the entry reached the
   * recycling point); a collision ends the round.
   */
  function Visit(s: WalkState, at: nat, pipe: Pipe, birdX: real, flyHeight: real, height: real, r: real): (s': WalkState)
    requires at < |s.pipes|
    ensures |s'.pipes| == |s.pipes|
  {
    var moved := Shift(pipe);
    var passes := Passes(moved.x, birdX);
    var score := if passes then s.score + 1 else s.score;
    var best := if passes then Max(s.best, score) else s.best;
    WalkState(Revisit(s.pipes, at, moved, height, r), score, best, if passes then best else s.stored,
              s.playing && !Collides(birdX, flyHeight, moved))
  }

  /**
   * The state after the first `i` steps of the walk over the queue
   * `walked`, starting from `s0`: each step visits the next walked entry at
   * its current position, `Dropped` places further front than it started.
   */
  function WalkFrom(s0: WalkState, walked: seq<Pipe>, i: nat, birdX: real, flyHeight: real, height: real, r: real): (s: WalkState)
    requires |s0.pipes| == |walked| && i <= |walked|
    ensures |s.pipes| == |walked|
    decreases i
  {
    if i == 0 then s0
    else Visit(WalkFrom(s0, walked, i - 1, birdX, flyHeight, height, r), (i - 1) - Dropped(walked, i - 1), walked[i - 1], birdX, flyHeight, height, r)
  }

  /**
   * What the first `i` steps of the walk over a valid queue do: the queue is
   * `Walk`, the score has gone up by the passes among the moved pipes, the
   * best score is the larger of the old best and the new score (and is what
   * is stored), and the round is still on only if it was and none of the
   * moved pipes collided.
   */
  lemma {:induction false} WalkFromMeaning(s0: WalkState, walked: seq<Pipe>, i: nat, birdX: real, flyHeight: real, height: real, r: real)
    requires FieldValid(walked, height) && s0.pipes == walked && i <= |walked|
    ensures var s := WalkFrom(s0, walked, i, birdX, flyHeight, height, r);
      s.pipes == Walk(walked, i, height, r) &&
      s.score == s0.score + PassCount(Advanced(walked)[..i], birdX) &&
      (s0.score <= s0.best ==> s.score <= s.best && s.best == Max(s0.best, s.score)) &&
      (s0.best == s0.stored ==> s.best == s.stored) &&
      s.playing == (s0.playing && !HitsAny(Advanced(walked)[..i], birdX, flyHeight))
    decreases i
  {
    if i == 0 {
      WalkEnds(walked, height, r);
    } else {
      WalkFromMeaning(s0, walked, i - 1, birdX, flyHeight, height, r);
      WalkStep(walked, i - 1, height, r);
      PassCountStep(Advanced(walked), i - 1, birdX);
      HitsAnyStep(Advanced(walked), i - 1, birdX, flyHeight);
    }
  }

  class Game {
    var playing: bool
    /** Vertical velocity of the bird (negative is upwards). */
    var flight: real
    /** Top edge of the bird. */
    var flyHeight: real
    var currentScore: int
    var bestScore: int
    /** The best score as last written to the browser's storage. */
    var storedBest: int
    /** Frame counter. */
    var index: nat
    var width: nat
    var height: nat
    /** The bird's fixed x: a tenth of the canvas width. */
    var cTenth: real
    var pipes: seq<Pipe>

    /** The fields the walk over the pipes changes. */
    function State(): WalkState
      reads this
    {
      WalkState(pipes, currentScore, bestScore, storedBest, playing)
    }

    ghost predicate Valid()
      reads this
    {
      cTenth == width as real / 10.0 &&
      0 <= currentScore <= bestScore && bestScore == storedBest &&
      FieldValid(pipes, height as real)
    }

    /**
     * The page loading: the globals take their initial values, then the
     * start screen is shown for a canvas of the given size, which runs setup.
     * `persisted` is the best score found in storage (0 when there is none).
     */
    constructor (w: nat, h: nat, persisted: nat, rs: seq<real>)
      requires Draws(rs)
      ensures Valid()
      ensures !playing && index == 0
      ensures width == w && height == h
      ensures currentScore == 0 && bestScore == persisted && storedBest == persisted
      ensures flight == Jump && flyHeight == h as real / 2.0 - BirdHeight / 2.0
      ensures pipes == Layout(w as real, h as real, rs)
    {
      playing := false;
      flight, flyHeight := 0.0, 0.0;
      currentScore, bestScore, storedBest := 0, 0, persisted;
      index := 0;
      width, height := w, h;
      cTenth := w as real / 10.0;
      pipes := [];
      new;
      Setup(rs);
    }

    /**
     * Resets the round: score 0, the bird in the middle of the canvas with a
     * fresh upward velocity, three new pipes off the right edge, and the best
     * score read back from storage.
     */
    method Setup(rs: seq<real>)
      requires Draws(rs)
      requires cTenth == width as real / 10.0 && storedBest >= 0
      modifies this
      ensures Valid()
      ensures currentScore == 0 && bestScore == storedBest
      ensures flight == Jump && flyHeight == height as real / 2.0 - BirdHeight / 2.0
      ensures pipes == Layout(width as real, height as real, rs)
      ensures playing == old(playing) && index == old(index) && storedBest == old(storedBest)
      ensures width == old(width) && height == old(height) && cTenth == old(cTenth)
    {
      currentScore := 0;
      flight := Jump;
      flyHeight := (height as real / 2.0) - (BirdHeight / 2.0);
      pipes := Layout(width as real, height as real, rs);
      bestScore := storedBest;
      LayoutValid(width as real, height as real, rs);
    }

    /** Ends the round. The frame in progress carries on. */
    method GameOver()
      modifies this`playing
      ensures !playing
    {
      playing := false;
    }

    /**
     * The simulation part of one frame. `r` is the random draw used if a
     * pipe is recycled on this frame.
     *
     * While playing, the pipes move (see `MovePipes`), then gravity moves the
     * bird, which stops at the floor and ends the round there. A collision
     * found by `MovePipes` ends the round without cutting the frame short.
     * While not playing only the frame counter advances.
     */
    method Tick(r: real)
      requires Valid() && 0.0 <= r < 1.0
      modifies this
      ensures Valid()
      ensures index == old(index) + 1
      ensures width == old(width) && height == old(height) && cTenth == old(cTenth)
      ensures bestScore == Max(old(bestScore), currentScore)
      ensures !old(playing) ==>
        !playing && pipes == old(pipes) && flight == old(flight) && flyHeight == old(flyHeight) &&
        currentScore == old(currentScore) && bestScore == old(bestScore)
      ensures old(playing) ==>
        pipes == NextPipes(old(pipes), height as real, r) &&
        currentScore == old(currentScore) + PassCount(Advanced(old(pipes)), cTenth)
      ensures old(playing) ==>
        (flyHeight, flight) == Fall(old(flyHeight), old(flight), height as real) &&
        flight == old(flight) + Gravity && flyHeight <= FloorY(height as real)
      ensures old(playing) ==>
        (playing <==> !HitsAny(Advanced(old(pipes)), cTenth, old(flyHeight)) && flyHeight < FloorY(height as real))
    {
      index := index + 1;
      if playing {
        MovePipes(r);

        flight := flight + Gravity;
        flyHeight := if flyHeight + flight < height as real - BirdHeight then flyHeight + flight else height as real - BirdHeight;

        if flyHeight >= height as real - BirdHeight {
          GameOver();
        }
      }
    }

    /**
     * The walk over the pipes within one playing frame. Each pipe in turn
     * moves left, may score, may be recycled, and is tested for collision
     * against the bird's height from the previous frame. The walk is over
     * the array as it was when the frame began: a recycle rebinds `pipes`
     * to a new array holding the same entries, so the appended pipe is not
     * moved on this frame.
     */
    method MovePipes(r: real)
      requires Valid() && playing && 0.0 <= r < 1.0
      modifies this`pipes, this`currentScore, this`bestScore, this`storedBest, this`playing
      ensures Valid()
      ensures pipes == NextPipes(old(pipes), height as real, r)
      ensures currentScore == old(currentScore) + PassCount(Advanced(old(pipes)), cTenth)
      ensures bestScore == Max(old(bestScore), currentScore)
      ensures playing == !HitsAny(Advanced(old(pipes)), cTenth, flyHeight)
    {
      // The array the loop walks; rebinding `pipes` below does not change it.
      var walked := pipes;
      // How many front pipes have been dropped so far on this frame.
      var dropped := 0;
      var i := 0;
      ghost var start := State();
      while i < |walked|
        invariant 0 <= i <= |walked| == 3
        invariant walked == old(pipes) && FieldValid(walked, height as real)
        invariant dropped == Dropped(walked, i)
        invariant State() == WalkFrom(start, walked, i, cTenth, flyHeight, height as real, r)
      {
        DroppedStep(walked, i, height as real);
        var recycled := VisitPipe(walked[i], i - dropped, r);
        if recycled {
          dropped := dropped + 1;
        }
        i := i + 1;
      }
      WalkFromMeaning(start, walked, 3, cTenth, flyHeight, height as real, r);
      WalkEnds(walked, height as real, r);
      assert Advanced(walked)[..3] == Advanced(walked);
      NextPipesValid(walked, height as real, r);
    }

    /**
     * The body of the walk, for one pipe entry sitting at position `at` of
     * the current queue: the entry moves left in place; if it now passes the
     * bird the score goes up by one, the best score follows and is stored;
     * if it reached the recycling point the front entry is dropped and a new
     * pipe is appended, spaced from the current rear entry; if it collides
     * with the bird the round ends. Returns whether it was recycled.
     */
    method VisitPipe(pipe: Pipe, at: nat, r: real) returns (recycled: bool)
      requires at < |pipes|
      modifies this`pipes, this`currentScore, this`bestScore, this`storedBest, this`playing
      ensures recycled == (Shift(pipe).x <= -PipeWidth)
      ensures State() == Visit(old(State()), at, pipe, cTenth, flyHeight, height as real, r)
    {
      var moved := Shift(pipe);
      pipes := pipes[at := moved];

      if Passes(moved.x, cTenth) {
        currentScore := currentScore + 1;
        bestScore := Max(bestScore, currentScore);
        storedBest := bestScore;
      }

      recycled := moved.x <= -PipeWidth;
      if recycled {
        pipes := pipes[1..] + [Pipe(pipes[|pipes| - 1].x + PipeGap + PipeWidth, PipeLoc(height as real, r))];
      }

      if Collides(cTenth, flyHeight, moved) {
        GameOver();
      }
    }

    /**
     * The start and restart buttons: a new round begins, from the state
     * setup gives, with the best score kept.
     */
    method Start(rs: seq<real>)
      requires Valid() && Draws(rs)
      modifies this
      ensures Valid() && playing
      ensures currentScore == 0 && bestScore == old(bestScore)
      ensures flight == Jump && flyHeight == height as real / 2.0 - BirdHeight / 2.0
      ensures pipes == Layout(width as real, height as real, rs)
      ensures index == old(index) && width == old(width) && height == old(height) && cTenth == old(cTenth)
    {
      playing := true;
      Setup(rs);
    }

    /** A click anywhere: while playing the bird gets the jump velocity, whatever it had. */
    method Click()
      modifies this
      ensures flight == if old(playing) then Jump else old(flight)
      ensures playing == old(playing) && flyHeight == old(flyHeight) && pipes == old(pipes)
      ensures currentScore == old(currentScore) && bestScore == old(bestScore) && storedBest == old(storedBest)
      ensures index == old(index) && width == old(width) && height == old(height) && cTenth == old(cTenth)
    {
      if playing {
        flight := Jump;
      }
    }

    /**
     * A window resize: the round ends, the canvas takes its new size, the
     * bird's x follows the width and setup lays out pipes for the new height.
     */
    method Resize(w: nat, h: nat, rs: seq<real>)
      requires Valid() && Draws(rs)
      modifies this
      ensures Valid() && !playing
      ensures width == w && height == h && cTenth == w as real / 10.0
      ensures currentScore == 0 && bestScore == old(bestScore)
      ensures flight == Jump && flyHeight == h as real / 2.0 - BirdHeight / 2.0
      ensures pipes == Layout(w as real, h as real, rs)
      ensures forall k :: 0 <= k < |pipes| ==> GapTopFits(h as real, pipes[k].gapTop)
      ensures index == old(index)
    {
      playing := false;
      width, height := w, h;
      cTenth := width as real / 10.0;
      if !playing {
        Setup(rs);
      }
    }
  }
}
