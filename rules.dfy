/**
 * The pure rules of the game: its constants, the pipe record, where a new
 * gap is placed, when the bird hits a pipe, when a pipe counts as passed,
 * how the bird falls, and which wing sprite is shown.
 *
 * Positions are exact reals; canvas coordinates grow rightwards (x) and
 * downwards (y), so the floor is the largest y the bird may reach.
 */
module Rules {

  const Gravity: real := 0.5
  const Speed: real := 6.2
  const Jump: real := -11.5
  const BirdWidth: real := 51.0
  const BirdHeight: real := 36.0
  const PipeWidth: real := 78.0
  const PipeGap: real := 270.0

  /** Horizontal distance between consecutive pipes when they are laid out. */
  const Spacing: real := PipeGap + PipeWidth

  /** The smallest canvas height for which a gap and both margins fit. */
  const MinHeight: real := PipeGap + 2.0 * PipeWidth

  /** A pipe pair: x of its left edge and y of the top of its gap. */
  datatype Pipe = Pipe(x: real, gapTop: real)

  function Max(a: int, b: int): int { if a < b then b else a }

  /**
   * The gap top for a random draw `r` on a canvas of the given height:
   * `r` scales the free range between the two margins of one pipe width.
   */
  function PipeLoc(height: real, r: real): (top: real)
    ensures 0.0 <= r < 1.0 && height >= MinHeight ==>
              PipeWidth <= top <= height - PipeGap - PipeWidth
    ensures 0.0 <= r < 1.0 && height > MinHeight ==> top < height - PipeGap - PipeWidth
    ensures 0.0 < r && height < MinHeight ==> top < PipeWidth
  {
    ScaleBounds(r, FreeRange(height));
    r * FreeRange(height) + PipeWidth
  }

  /** The length of the band of possible gap tops (negative on a short canvas). */
  function FreeRange(height: real): real
  {
    (height - (PipeGap + PipeWidth)) - PipeWidth
  }

  /** `r * range` lies between 0 and `range` when `r` is a draw in [0, 1). */
  lemma ScaleBounds(r: real, range: real)
    ensures 0.0 <= r < 1.0 && range >= 0.0 ==> 0.0 <= r * range <= range
    ensures 0.0 <= r < 1.0 && range > 0.0 ==> r * range < range
    ensures 0.0 < r && range < 0.0 ==> r * range < 0.0
  {
    if 0.0 <= r < 1.0 && range >= 0.0 {
      assert (1.0 - r) * range >= 0.0;
    }
    if 0.0 <= r < 1.0 && range > 0.0 {
      assert (1.0 - r) * range > 0.0;
    }
  }

  /**
   * On a canvas tall enough for a gap, the band a gap top may fall in: at
   * least one pipe width below the top edge, and high enough that the gap
   * and one more pipe width fit above the bottom edge. On a shorter canvas
   * no such band exists and nothing is required.
   */
  predicate GapTopFits(height: real, top: real)
  {
    height >= MinHeight ==> PipeWidth <= top <= height - PipeGap - PipeWidth
  }

  // ---------------------------------------------------------------------
  // Collision

  /**
   * The collision test between the bird (left edge `birdX`, top `flyHeight`)
   * and one pipe: the horizontal spans overlap and the bird is not wholly
   * inside the gap.
   */
  predicate Collides(birdX: real, flyHeight: real, p: Pipe)
  {
    birdX + BirdWidth > p.x &&
    birdX < p.x + PipeWidth &&
    (flyHeight < p.gapTop || flyHeight + BirdHeight > p.gapTop + PipeGap)
  }

  /** The point (px, py) lies in the bird's sprite box. */
  ghost predicate BirdCovers(birdX: real, flyHeight: real, px: real, py: real)
  {
    birdX < px < birdX + BirdWidth && flyHeight <= py <= flyHeight + BirdHeight
  }

  /** The point (px, py) lies in solid pipe: in the pipe's column, outside its gap. */
  ghost predicate SolidAt(p: Pipe, px: real, py: real)
  {
    p.x < px < p.x + PipeWidth && (py < p.gapTop || py > p.gapTop + PipeGap)
  }

  /**
   * The collision test is exactly "some point of the bird's box is solid
   * pipe": the box-overlap formula agrees with the geometric definition.
   */
  lemma CollidesIffBirdMeetsSolid(birdX: real, flyHeight: real, p: Pipe)
    ensures Collides(birdX, flyHeight, p) <==>
            exists px, py :: BirdCovers(birdX, flyHeight, px, py) && SolidAt(p, px, py)
  {
    if Collides(birdX, flyHeight, p) {
      var left := if birdX < p.x then p.x else birdX;
      var right := if birdX + BirdWidth < p.x + PipeWidth then birdX + BirdWidth else p.x + PipeWidth;
      var px := (left + right) / 2.0;
      var py := if flyHeight < p.gapTop then flyHeight else flyHeight + BirdHeight;
      assert BirdCovers(birdX, flyHeight, px, py) && SolidAt(p, px, py);
    }
  }

  /** A bird whose whole height lies inside the gap never collides. */
  lemma InsideGapNeverCollides(birdX: real, flyHeight: real, p: Pipe)
    requires p.gapTop <= flyHeight && flyHeight + BirdHeight <= p.gapTop + PipeGap
    ensures !Collides(birdX, flyHeight, p)
  {
  }

  /** A pipe whose column does not overlap the bird's never collides. */
  lemma NoOverlapNeverCollides(birdX: real, flyHeight: real, p: Pipe)
    requires birdX + BirdWidth <= p.x || p.x + PipeWidth <= birdX
    ensures !Collides(birdX, flyHeight, p)
  {
  }

  // ---------------------------------------------------------------------
  // Passing a pipe

  /**
   * The score test for a pipe whose left edge has just moved to `x`: its
   * right edge is now left of the bird but was not before this tick's move.
   */
  predicate Passes(x: real, birdX: real)
  {
    x + PipeWidth < birdX && x + PipeWidth + Speed >= birdX
  }

  /** Where a pipe's left edge is after `k` ticks of play, starting at `x`. */
  function Drift(x: real, k: nat): real
    decreases k
  {
    if k == 0 then x else Drift(x - Speed, k - 1)
  }

  lemma {:induction false} DriftStep(x: real, k: nat)
    ensures Drift(x, k + 1) == Drift(x, k) - Speed
    decreases k
  {
    if k > 0 {
      DriftStep(x - Speed, k - 1);
    }
  }

  /** Each later tick leaves the pipe at least one step further left. */
  lemma {:induction false} DriftDecreases(x: real, j: nat, k: nat)
    requires j < k
    ensures Drift(x, k) <= Drift(x, j) - Speed
    decreases k
  {
    DriftStep(x, k - 1);
    if j < k - 1 {
      DriftDecreases(x, j, k - 1);
    }
  }

  /** The score test holds on at most one tick of a pipe's journey. */
  lemma PassAtMostOnce(x: real, birdX: real, j: nat, k: nat)
    requires Passes(Drift(x, j), birdX) && Passes(Drift(x, k), birdX)
    ensures j == k
  {
    if j < k {
      DriftDecreases(x, j, k);
    } else if k < j {
      DriftDecreases(x, k, j);
    }
  }

  /** A pipe whose right edge is already left of the bird never scores again. */
  lemma {:induction false} NoPassOncePast(x: real, birdX: real, k: nat)
    requires x + PipeWidth < birdX && k >= 1
    ensures !Passes(Drift(x, k), birdX)
    decreases k
  {
    DriftStep(x, k - 1);
    if k > 1 {
      DriftDecreases(x, 0, k - 1);
    }
  }

  /** Starting right of the bird, a pipe eventually moves past it. */
  lemma {:induction false} DriftGoesPast(x: real, bound: real)
    ensures exists n: nat :: Drift(x, n) < bound
    decreases if x < bound then 0 else ((x - bound) / Speed).Floor + 1
  {
    if x < bound {
      assert Drift(x, 0) < bound;
    } else {
      DriftGoesPast(x - Speed, bound);
      var n: nat :| Drift(x - Speed, n) < bound;
      assert Drift(x, n + 1) < bound;
    }
  }

  /** Between a tick where the right edge is not past the bird and one where it is, the test fires. */
  lemma {:induction false} PassWithin(x: real, birdX: real, n: nat)
    requires x + PipeWidth >= birdX && Drift(x, n) + PipeWidth < birdX
    ensures exists k: nat :: 1 <= k <= n && Passes(Drift(x, k), birdX)
    decreases n
  {
    assert n >= 1;
    DriftStep(x, n - 1);
    if Drift(x, n - 1) + PipeWidth < birdX {
      PassWithin(x, birdX, n - 1);
    } else {
      assert Passes(Drift(x, n), birdX);
    }
  }

  /**
   * A pipe whose right edge starts at or right of the bird and moves left
   * by `Speed` each tick scores on exactly one tick.
   */
  lemma PassFiresExactlyOnce(x: real, birdX: real)
    requires x + PipeWidth >= birdX
    ensures exists k: nat :: k >= 1 && Passes(Drift(x, k), birdX)
    ensures forall j: nat, k: nat :: Passes(Drift(x, j), birdX) && Passes(Drift(x, k), birdX) ==> j == k
  {
    DriftGoesPast(x + PipeWidth, birdX);
    var n: nat :| Drift(x + PipeWidth, n) < birdX;
    DriftShifts(x, PipeWidth, n);
    PassWithin(x, birdX, n);
    forall j: nat, k: nat | Passes(Drift(x, j), birdX) && Passes(Drift(x, k), birdX)
      ensures j == k
    {
      PassAtMostOnce(x, birdX, j, k);
    }
  }

  lemma {:induction false} DriftShifts(x: real, d: real, n: nat)
    ensures Drift(x + d, n) == Drift(x, n) + d
    decreases n
  {
    if n > 0 {
      DriftShifts(x - Speed, d, n - 1);
    }
  }

  // ---------------------------------------------------------------------
  // The bird

  /** The lowest top edge the bird may have on a canvas of the given height. */
  function FloorY(height: real): real { height - BirdHeight }

  /**
   * One tick of the bird's motion: gravity adds to the velocity, the
   * velocity moves the bird, and the bird stops at the floor. There is no
   * ceiling.
   */
  function Fall(flyHeight: real, flight: real, height: real): (next: (real, real))
    ensures next.1 == flight + Gravity
    ensures next.0 <= FloorY(height)
    ensures next.0 == FloorY(height) <==> flyHeight + next.1 >= FloorY(height)
    ensures next.0 < FloorY(height) ==> next.0 == flyHeight + next.1
  {
    var v := flight + Gravity;
    (if flyHeight + v < height - BirdHeight then flyHeight + v else height - BirdHeight, v)
  }

  /** The bird after `n` ticks with no jump. */
  function FallFor(flyHeight: real, flight: real, height: real, n: nat): (real, real)
    decreases n
  {
    if n == 0 then (flyHeight, flight)
    else
      var next := Fall(flyHeight, flight, height);
      FallFor(next.0, next.1, height, n - 1)
  }

  /**
   * With no jump, the bird reaches the floor after finitely many ticks,
   * whatever its height and velocity.
   */
  lemma {:induction false} FallReachesFloor(flyHeight: real, flight: real, height: real)
    ensures exists n: nat :: n >= 1 && FallFor(flyHeight, flight, height, n).0 == FloorY(height)
    decreases if flight < 1.0 then ((1.0 - flight) / Gravity).Floor + 1 else 0,
              if flyHeight < FloorY(height) then (FloorY(height) - flyHeight).Floor + 1 else 0
  {
    var next := Fall(flyHeight, flight, height);
    if next.0 == FloorY(height) {
      assert FallFor(flyHeight, flight, height, 1).0 == FloorY(height);
    } else {
      FallReachesFloor(next.0, next.1, height);
      var n: nat :| n >= 1 && FallFor(next.0, next.1, height, n).0 == FloorY(height);
      assert FallFor(flyHeight, flight, height, n + 1).0 == FloorY(height);
    }
  }

  // ---------------------------------------------------------------------
  // Animation

  /** The wing sprite shown on frame `index`: three phases, each held three frames. */
  function SpritePhase(index: nat): (phase: nat)
    ensures phase < 3
  {
    (index % 9) / 3
  }

  /** The phase advances once every three frames and wraps after three phases. */
  lemma SpritePhaseCycles(index: nat)
    ensures SpritePhase(index) == (index / 3) % 3
    ensures SpritePhase(index + 9) == SpritePhase(index)
  {
    var q := index / 9;
    var m := index % 9;
    assert index == 9 * q + m;
    assert (index / 3) == 3 * q + m / 3;
    assert (index + 9) % 9 == m;
  }
}
