# Flappy Bird game simulation in Dafny

This project models the game simulation of a browser Flappy Bird clone (`script.js`). It covers:

- the state the page keeps between frames: whether a round is on, the bird's velocity and height, the current and best score, the frame counter, the bird's x (a tenth of the canvas width) and the queue of three pipes;
- the handlers that change that state: setup, the simulation half of one rendered frame, game over, the start and restart buttons, a click anywhere, and a window resize;
- what those handlers promise.

Positions and constants are exact reals: gravity 0.5, speed 6.2, jump -11.5, a 51×36 bird, pipes 78 wide with a 270 gap. Canvas sizes are natural numbers.

The project has three modules:

- `rules.dfy` (`Rules`) holds the pure rules:
  - where a new gap is placed (`PipeLoc`);
  - the collision test (`Collides`) and the pass test (`Passes`);
  - one tick of the bird's fall (`Fall`) and the wing sprite phase (`SpritePhase`).
  
  It proves that:
  - the collision test means "some point of the bird is solid pipe";
  - a pipe scores on exactly one tick of its journey;
  - a falling bird reaches the floor.
- `field.dfy` (`Field`) holds the pipe queue:
  - setup's layout (`Layout`);
  - the effect of one frame of play (`NextPipes`);
  - the position bookkeeping of the walk over the pipes (`Walk`, `Revisit`, `Dropped`);
  - the queue invariant (`FieldValid`) and the lemmas that setup establishes it and each frame keeps it.
- `game.dfy` (`FlappyBird`) holds the class `Game`:
  - the page's globals as its fields;
  - each handler as a method with `modifies`.
  
  `Tick` is one frame. Its loop over the pipes is `MovePipes`, which calls `VisitPipe` once per entry. `MovePipes` is proved against `WalkFrom`, a function giving the state after the first `i` pipes of the walk. `WalkFromMeaning` proves what `WalkFrom` computes: the queue, the score and best score, and whether the round survives.

The model follows the code where it differs from what a reader might expect:

- **The walk does not move the new pipe.** The loop walks the array the frame began with. A recycle rebinds the queue to a new array that holds the same pipe entries plus a new one. So the appended pipe is not moved on the frame it appears. Entries the loop visits after a recycle are updated at their new position, one place further front.
- **A recycle leaves a wider last gap.** The new pipe's x is taken from the rear pipe before the rear pipe has moved on that frame. So after a recycle the last two pipes are `348 + 6.2` apart, not 348 (`Field.RecycleShape`). `FieldValid` allows both spacings.
- **Game over does not cut the frame short.** The rest of the walk and the bird's motion still run. Collisions are tested against the bird's height from the previous frame, because gravity is applied after the walk.
- **Only the floor is clamped.** The bird can rise above the top of the canvas.
- **A short canvas is not handled.** The gap-top formula is not clamped. On a canvas shorter than `270 + 2·78` a draw above 0 puts the gap top less than one pipe width from the top (`Rules.PipeLoc`, third ensures).
- **The upper bound on the gap top is strict only above the minimum height.** When the canvas is exactly `270 + 2·78` high, the gap top is exactly 78, which equals the upper end of the band. So the upper bound is strict only on taller canvases.

## Model

| member | source | states |
|---|---|---|
| Rules.PipeLoc | script.js:38 | for a draw in [0, 1) on a canvas of at least 270 + 2·78, the gap top lies in [78, height − 270 − 78], strictly below the upper end when the canvas is taller; on a shorter canvas a positive draw puts it less than 78 below the top edge; the copy rebuilt on resize (line 51) is the same function of the new height |
| Rules.CollidesIffBirdMeetsSolid | script.js:126-130 | the collision test holds exactly when some point of the bird's box lies in the pipe's column outside its gap |
| Rules.InsideGapNeverCollides | script.js:126-130 | a bird whose whole height is inside the gap never collides |
| Rules.NoOverlapNeverCollides | script.js:126-130 | a pipe whose column does not overlap the bird never collides |
| Rules.PassAtMostOnce | script.js:112 | the score test holds on at most one tick of a pipe moving left by the speed each tick |
| Rules.NoPassOncePast | script.js:112 | a pipe whose right edge is already left of the bird never scores on a later tick |
| Rules.PassWithin | script.js:105-112 | if the right edge starts at or right of the bird and is left of it after n ticks, the score test fired on some tick 1..n |
| Rules.PassFiresExactlyOnce | script.js:105-112 | a pipe whose right edge starts at or right of the bird scores on exactly one tick |
| Rules.Fall | script.js:136-137 | velocity grows by gravity; the new height never exceeds the floor; it equals the floor exactly when the unclamped move reaches it, and is the unclamped move otherwise |
| Rules.FallReachesFloor | script.js:136-142 | with no jump the bird reaches the floor after finitely many ticks, from any height and velocity |
| Rules.SpritePhase | script.js:145 | the wing phase is one of three |
| Rules.SpritePhaseCycles | script.js:145 | the phase is the frame count divided by three, modulo three, and repeats every nine frames |
| Field.LayoutValid | script.js:76 | setup's queue has three pipes, the first at the canvas's right edge, strictly ascending exactly 348 apart, each gap top drawn by the gap formula, and satisfies the queue invariant |
| Field.OnlyFrontRecycles | script.js:121 | in a valid queue only the front pipe can reach the recycling point on a frame |
| Field.NextPipesValid | script.js:104-123 | one frame of play keeps the queue invariant: three pipes, ascending at one of the two spacings, gap tops in the band |
| Field.RecycleShape | script.js:121-122 | a recycle drops the front pipe, keeps the other two in order moved one step, and appends a pipe 348 + 6.2 behind the rear one with a freshly drawn gap |
| Field.NoRecycleShape | script.js:105 | without a recycle every pipe moves one step left and the distances between them are unchanged |
| Field.AtMostOnePassPerTick | script.js:104-118 | in a valid queue at most one pipe scores on a frame |
| Field.DroppedStep | script.js:121-122 | a walked pipe reaches the recycling point exactly when it is the front pipe and the front recycles, and each later entry then sits one place further front |
| Field.WalkStep | script.js:104-123 | each step of the walk replaces the walked entry at its current position with its moved version, and recycles when that reaches the recycling point |
| Field.WalkEnds | script.js:104-123 | the walk starts from the queue as it was and ends in the queue after one frame |
| Field.HitsAnyIffSomePipe | script.js:126-131 | the round ends in the walk exactly when some moved pipe collides with the bird |
| FlappyBird.Visit | script.js:105-132 | one step of the walk keeps the queue at the same length |
| FlappyBird.WalkFrom | script.js:104-133 | the walk over the pipes keeps the queue length |
| FlappyBird.WalkFromMeaning | script.js:104-133 | after i steps of the walk the queue is the partly walked queue, the score has grown by the passes among the moved pipes, the best score is the larger of the old best and the new score and is what is stored, and the round is on only if none of the moved pipes collided |
| FlappyBird.Game.constructor | script.js:280-283 | the page starts with the round off, the frame counter at 0, the stored best score, and setup's state for the canvas size |
| FlappyBird.Game.Setup | script.js:66-87 | score 0, the bird at mid-height with the jump velocity, setup's three pipes, best score read back from storage, the invariant established, the round flag and frame counter untouched |
| FlappyBird.Game.GameOver | script.js:169-174 | the round is off |
| FlappyBird.Game.Tick | script.js:92-146 | the frame counter grows by one; while idle nothing else changes; while playing the queue becomes the next frame's queue, the score grows by the number of pipes passed, the best score becomes the larger of the old best and the new score, the bird falls one tick and stops at the floor, and the round stays on exactly when no moved pipe collided with the bird at its old height and the bird is above the floor; the invariant is kept |
| FlappyBird.Game.MovePipes | script.js:104-133 | the walk over the array the frame began with leaves the next frame's queue, raises the score by the passes, keeps best score and stored score equal to the larger of the old best and the new score, and ends the round exactly when some moved pipe collides |
| FlappyBird.Game.VisitPipe | script.js:105-132 | one pipe's step: moves it in place, scores on a pass, recycles when it reaches the recycling point, ends the round on a collision; reports whether it recycled |
| FlappyBird.Game.Start | script.js:189-197 | the round is on, from setup's state, with the best score kept |
| FlappyBird.Game.Click | script.js:199-203 | while playing the velocity becomes the jump velocity whatever it was; while idle nothing changes; nothing else changes either way |
| FlappyBird.Game.Resize | script.js:44-59 | a resize (through the start screen, lines 176-185) ends the round; the canvas takes its new size, the bird's x follows the width, setup lays out pipes whose gap tops fit the new height, and the best score and frame counter are kept |

## Left out

- Drawing: all canvas calls, the scrolling background, the pipe and bird images, the start-screen text. These are presentation only.
- The DOM: score displays, screen visibility, CSS filters.
- Browser storage is a field `storedBest` written wherever the best score is saved. The constructor takes the value found at page load, 0 when there is none. The string round trip through storage is not modelled.
- `Math.random` is a parameter in [0, 1). Setup takes three draws. `Tick` takes one draw, used if a pipe is recycled on that frame. The code draws once per recycle, and `Field.DroppedStep` shows at most one recycle happens per frame, so one draw covers every frame.
- Frame scheduling, event wiring and measuring the canvas are host plumbing. The canvas size is an input to the constructor and to `Resize`, and each handler is a method called directly.
- The splash animation before the game starts is timer-driven UI with no game state.
- Floating-point rounding: 6.2, 0.5 and the canvas divisions are exact reals here.
- Pipe entries are values. The sharing of entries between the old and the rebound array is captured by updating each walked entry at its current position in the rebound queue. Object identity is not modelled.
- Field.FieldValid: on a canvas shorter than 270 + 2·78 it places no bound on gap tops, because the code's formula then has no band to stay in.
