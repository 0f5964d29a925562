/**
 * The queue of three pipes: how setup lays it out, how one tick of play
 * moves and recycles it, and what a tick's scoring and collision tests see.
 */
module Field {
  import opened Rules

  /** A pipe after one tick's move to the left. */
  function Shift(p: Pipe): Pipe
  {
    Pipe(p.x - Speed, p.gapTop)
  }

  /** Every pipe moved one tick to the left, in the same order. */
  function Advanced(ps: seq<Pipe>): seq<Pipe>
  {
    seq(|ps|, k requires 0 <= k < |ps| => Shift(ps[k]))
  }

  /**
   * The three pipes setup lays out: the first at the right edge of the
   * canvas, each next one `Spacing` further right, each gap drawn anew.
   */
  function Layout(width: real, height: real, rs: seq<real>): seq<Pipe>
    requires |rs| == 3
  {
    seq(3, i requires 0 <= i < 3 => Pipe(width + (i as real) * (PipeGap + PipeWidth), PipeLoc(height, rs[i])))
  }

  /** Two neighbouring pipes are as far apart as setup or a recycle puts them. */
  predicate Spaced(a: Pipe, b: Pipe)
  {
    b.x - a.x == Spacing || b.x - a.x == Spacing + Speed
  }

  /**
   * The invariant of the pipe queue between ticks: three pipes, the front
   * one not yet a whole step past the point where it is recycled, in
   * ascending order at one of the two spacings, every gap in the band of
   * the current canvas height.
   */
  predicate FieldValid(ps: seq<Pipe>, height: real)
  {
    |ps| == 3 &&
    ps[0].x > -PipeWidth - Speed &&
    Spaced(ps[0], ps[1]) && Spaced(ps[1], ps[2]) &&
    forall k :: 0 <= k < |ps| ==> GapTopFits(height, ps[k].gapTop)
  }

  /** The front pipe reaches the recycling point on this tick's move. */
  predicate Recycles(ps: seq<Pipe>)
    requires |ps| > 0
  {
    Shift(ps[0]).x <= -PipeWidth
  }

  /**
   * The pipe appended when the front one is recycled. Its x is taken from
   * the rear pipe before the rear pipe has made this tick's move.
   */
  function Replacement(ps: seq<Pipe>, height: real, r: real): Pipe
    requires |ps| > 0
  {
    Pipe(ps[|ps| - 1].x + PipeGap + PipeWidth, PipeLoc(height, r))
  }

  /**
   * The queue after one tick of play: every pipe moves, and a front pipe
   * that reaches the recycling point is dropped and a replacement appended
   * (which does not move on this tick).
   */
  function NextPipes(ps: seq<Pipe>, height: real, r: real): seq<Pipe>
    requires |ps| > 0
  {
    if Recycles(ps) then Advanced(ps[1..]) + [Replacement(ps, height, r)] else Advanced(ps)
  }

  /** How many of the pipes pass the bird's x, by the score test. */
  function PassCount(ps: seq<Pipe>, birdX: real): nat
  {
    if ps == [] then 0
    else PassCount(ps[..|ps| - 1], birdX) + (if Passes(ps[|ps| - 1].x, birdX) then 1 else 0)
  }

  /** The collision test fires for some pipe, checked in queue order. */
  predicate HitsAny(ps: seq<Pipe>, birdX: real, flyHeight: real)
  {
    ps != [] && (HitsAny(ps[..|ps| - 1], birdX, flyHeight) || Collides(birdX, flyHeight, ps[|ps| - 1]))
  }

  /**
   * The queue after the first `i` steps of a tick's walk over `ps`: the
   * walked pipes have moved, and once the front pipe has been recycled it is
   * gone and the replacement is at the rear.
   */
  function Walk(ps: seq<Pipe>, i: nat, height: real, r: real): seq<Pipe>
    requires 0 < |ps| && i <= |ps|
  {
    if i > 0 && Recycles(ps) then Advanced(ps[1..i]) + ps[i..] + [Replacement(ps, height, r)]
    else Advanced(ps[..i]) + ps[i..]
  }

  /**
   * One step of the walk on the current queue `q`: the entry at `at` is
   * replaced by its moved version `moved`; if that reached the recycling
   * point, the front entry is dropped and a pipe spaced from the current
   * rear entry is appended.
   */
  function Revisit(q: seq<Pipe>, at: nat, moved: Pipe, height: real, r: real): (q'': seq<Pipe>)
    requires at < |q|
    ensures |q''| == |q|
  {
    var q' := q[at := moved];
    if moved.x <= -PipeWidth then q'[1..] + [Pipe(q'[|q'| - 1].x + PipeGap + PipeWidth, PipeLoc(height, r))]
    else q'
  }

  /** How many pipes the first `i` steps of the walk have dropped. */
  function Dropped(ps: seq<Pipe>, i: nat): nat
    requires 0 < |ps|
  {
    if i > 0 && Recycles(ps) then 1 else 0
  }

  // ---------------------------------------------------------------------
  // Properties

  /**
   * Setup's layout: three pipes, the first at the canvas's right edge,
   * strictly ascending with exactly `Spacing` between neighbours, every gap
   * in the band; it satisfies the queue invariant.
   */
  lemma LayoutValid(width: real, height: real, rs: seq<real>)
    requires width >= 0.0
    requires |rs| == 3 && forall k :: 0 <= k < 3 ==> 0.0 <= rs[k] < 1.0
    ensures var ps := Layout(width, height, rs);
      |ps| == 3 && ps[0].x == width &&
      (forall k :: 0 <= k < 2 ==> ps[k + 1].x - ps[k].x == Spacing && ps[k].x < ps[k + 1].x) &&
      (forall k :: 0 <= k < 3 ==> ps[k].gapTop == PipeLoc(height, rs[k])) &&
      FieldValid(ps, height)
  {
    var ps := Layout(width, height, rs);
    assert ps[0].x == width;
    assert ps[1].x == width + Spacing;
    assert ps[2].x == width + 2.0 * Spacing;
  }

  /** Only the front pipe of a valid queue can reach the recycling point on a tick. */
  lemma OnlyFrontRecycles(ps: seq<Pipe>, height: real)
    requires FieldValid(ps, height)
    ensures forall k :: 1 <= k < 3 ==> Shift(ps[k]).x > -PipeWidth
  {
  }

  /**
   * One tick of play keeps the queue invariant: still three pipes, still
   * ascending, still spaced, every gap still in the band.
   */
  lemma NextPipesValid(ps: seq<Pipe>, height: real, r: real)
    requires FieldValid(ps, height) && 0.0 <= r < 1.0
    ensures FieldValid(NextPipes(ps, height, r), height)
  {
    var next := NextPipes(ps, height, r);
    if Recycles(ps) {
      assert next == [Shift(ps[1]), Shift(ps[2]), Replacement(ps, height, r)];
    } else {
      assert next == [Shift(ps[0]), Shift(ps[1]), Shift(ps[2])];
    }
  }

  /**
   * A recycle drops the front pipe, keeps the other two in order (moved one
   * step), and appends the replacement `Spacing + Speed` behind the rear
   * pipe: the gap between the last two pipes widens by one step.
   */
  lemma RecycleShape(ps: seq<Pipe>, height: real, r: real)
    requires |ps| == 3 && Recycles(ps)
    ensures var next := NextPipes(ps, height, r);
      |next| == 3 && next[0] == Shift(ps[1]) && next[1] == Shift(ps[2]) &&
      next[2].x - next[1].x == Spacing + Speed &&
      next[2].gapTop == PipeLoc(height, r)
  {
  }

  /** Without a recycle every pipe moves one step left and the spacings are unchanged. */
  lemma NoRecycleShape(ps: seq<Pipe>, height: real, r: real)
    requires |ps| == 3 && !Recycles(ps)
    ensures var next := NextPipes(ps, height, r);
      |next| == 3 &&
      (forall k :: 0 <= k < 3 ==> next[k] == Pipe(ps[k].x - Speed, ps[k].gapTop)) &&
      (forall k :: 0 <= k < 2 ==> next[k + 1].x - next[k].x == ps[k + 1].x - ps[k].x)
  {
  }

  /** In a valid queue at most one pipe passes the bird on one tick. */
  lemma AtMostOnePassPerTick(ps: seq<Pipe>, height: real, birdX: real)
    requires FieldValid(ps, height)
    ensures PassCount(Advanced(ps), birdX) <= 1
  {
    var a := Advanced(ps);
    assert a[..1][..0] == [];
    assert a[..2][..1] == a[..1];
    assert a[..3][..2] == a[..2];
    assert a == a[..3];
    var n0 := if Passes(a[0].x, birdX) then 1 else 0;
    var n1 := if Passes(a[1].x, birdX) then 1 else 0;
    var n2 := if Passes(a[2].x, birdX) then 1 else 0;
    assert PassCount(a[..1], birdX) == n0;
    assert PassCount(a[..2], birdX) == n0 + n1;
    assert PassCount(a, birdX) == n0 + n1 + n2;
    assert a[1].x - a[0].x > Speed && a[2].x - a[1].x > Speed;
  }

  /**
   * Position bookkeeping for one step of the walk over a valid queue: the
   * `i`-th walked pipe sits `Dropped` places further front than where it
   * started; it reaches the recycling point only if it is the front pipe,
   * and then one more pipe has been dropped.
   */
  lemma DroppedStep(ps: seq<Pipe>, i: nat, height: real)
    requires FieldValid(ps, height) && i < 3
    ensures 0 <= i - Dropped(ps, i) <= i
    ensures Shift(ps[i]).x <= -PipeWidth <==> i == 0 && Recycles(ps)
    ensures Dropped(ps, i + 1) == Dropped(ps, i) + (if Shift(ps[i]).x <= -PipeWidth then 1 else 0)
  {
  }

  /**
   * One step of the walk over a valid queue: the `i`-th walked pipe, moved,
   * replaces its own entry in the current queue; if it reached the
   * recycling point the current front is dropped and a pipe spaced from the
   * current rear is appended.
   */
  lemma WalkStep(ps: seq<Pipe>, i: nat, height: real, r: real)
    requires FieldValid(ps, height) && i < 3
    ensures 0 <= i - Dropped(ps, i) < |Walk(ps, i, height, r)|
    ensures Walk(ps, i + 1, height, r) == Revisit(Walk(ps, i, height, r), i - Dropped(ps, i), Shift(ps[i]), height, r)
  {
    DroppedStep(ps, i, height);
    var q := Walk(ps, i, height, r);
    if Recycles(ps) {
      if i == 0 {
        assert q == ps;
      } else if i == 1 {
        assert q == ps[1..] + [Replacement(ps, height, r)];
      } else {
        assert q == [Shift(ps[1]), ps[2], Replacement(ps, height, r)];
      }
    } else {
      if i == 0 {
        assert q == ps;
      } else if i == 1 {
        assert q == [Shift(ps[0]), ps[1], ps[2]];
      } else {
        assert q == [Shift(ps[0]), Shift(ps[1]), ps[2]];
      }
    }
  }

  /** The walk starts from the queue as it was and ends in `NextPipes`. */
  lemma WalkEnds(ps: seq<Pipe>, height: real, r: real)
    requires |ps| == 3
    ensures Walk(ps, 0, height, r) == ps
    ensures Walk(ps, 3, height, r) == NextPipes(ps, height, r)
  {
    assert ps[..0] == [] && ps[0..] == ps && ps[3..] == [];
    assert ps[1..3] == ps[1..] && ps[..3] == ps;
  }

  /** Counting passes over one more pipe of a prefix. */
  lemma PassCountStep(s: seq<Pipe>, i: nat, birdX: real)
    requires i < |s|
    ensures PassCount(s[..i + 1], birdX) == PassCount(s[..i], birdX) + (if Passes(s[i].x, birdX) then 1 else 0)
  {
    assert s[..i + 1][..i] == s[..i];
  }

  /** Testing one more pipe of a prefix for collision. */
  lemma HitsAnyStep(s: seq<Pipe>, i: nat, birdX: real, flyHeight: real)
    requires i < |s|
    ensures HitsAny(s[..i + 1], birdX, flyHeight) <==> HitsAny(s[..i], birdX, flyHeight) || Collides(birdX, flyHeight, s[i])
  {
    assert s[..i + 1][..i] == s[..i];
  }

  /** The round ends on a tick exactly when some pipe of the queue collides with the bird. */
  lemma {:induction false} HitsAnyIffSomePipe(ps: seq<Pipe>, birdX: real, flyHeight: real)
    ensures HitsAny(ps, birdX, flyHeight) <==> exists k :: 0 <= k < |ps| && Collides(birdX, flyHeight, ps[k])
  {
    if ps != [] {
      var init := ps[..|ps| - 1];
      HitsAnyIffSomePipe(init, birdX, flyHeight);
      if exists k :: 0 <= k < |ps| && Collides(birdX, flyHeight, ps[k]) {
        var k :| 0 <= k < |ps| && Collides(birdX, flyHeight, ps[k]);
        if k < |ps| - 1 {
          assert init[k] == ps[k];
        }
      }
      if HitsAny(init, birdX, flyHeight) {
        var k :| 0 <= k < |init| && Collides(birdX, flyHeight, init[k]);
        assert ps[k] == init[k];
      }
    }
  }
}
