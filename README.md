# FlipRunner core in Dafny

FlipRunner is a small Android side-scroller: a player jumps up or down off a
central lane to dodge obstacles, while a game thread advances the physics
from the wall clock and runs a mode machine (READY, RUNNING, PAUSE, LOSE).
This project models that core: the `Player` entity and the `GameThread`
inner class of `GameSurface`.

Layout:

- `player_spec.dfy`, module `PlayerSpec`: the player's state as a value
  (`x`, `y`, `dx`, `dy`, jump flag), its operations as functions, the
  snapshot bundle, a consistency predicate, and lemmas.
- `player.dfy`, module `PlayerImpl`: class `Player`. Its methods overwrite
  the fields in the source's order and are proved to end in the state the
  `PlayerSpec` functions compute.
- `game_spec.dfy`, module `GameSpec`: the thread's state as a value (mode,
  last-tick clock, obstacle list, player), the directives sent to the status
  text, every thread operation as a function, the input/loop events, and
  lemmas.
- `game_thread.dfy`, module `GameImpl`: class `GameThread<O>`. It owns a
  `Player`, keeps the obstacle list as a `seq` field, and advances the
  obstacles in a loop. Each method is proved against its `GameSpec` function.

Modelling choices:

- Doubles are reals. Every operation in the core is exact over reals.
- The jump flag and the mode stay integers with named constants, as in the
  source. `setJumping` accepts any integer. A new thread's mode is Java's
  default 0, which is not one of the four modes.
- Obstacle code is not part of this model. Obstacles are values of a type
  parameter `O`. Each start (`doStart`, reached through a touch) is given
  the obstacle its `new Obstacle()` constructs, so two starts may append
  different obstacles. The thread is given `advance`, one obstacle physics
  step.
- `System.currentTimeMillis()` becomes a parameter `now` in milliseconds.
  The elapsed time of a tick is `(now - lastTime) / 1000` seconds.
- A bundle is a `map<string, real>`. `saveState` returns the updated bundle
  instead of mutating the caller's object.
- A touch event is reduced to its action code. `ActionDown` is 0, Android's
  value for `MotionEvent.ACTION_DOWN`.
- The status-text message becomes a returned `Directive(text, visibility)`.

Behaviour of the code that a reader might not expect (the model follows the
code):

- A tick is skipped only when the last-tick time is strictly in the future.
  A tick with zero elapsed time still runs. If it comes right after a
  swipe from rest on the centre, it cancels the jump, because y = 0 already
  counts as landed
  (`GameSpec.ZeroElapsedTickCancelsJump`).
- `reset` keeps the jump flag, so a restart in mid-jump refuses swipes until
  the next tick. That tick lands the player at rest, so the jump does resolve
  (`PlayerSpec.ResetMidJump`).
- Gravity acts only while y is strictly on the jump's side. So the first
  step of a jump, taken from y = 0, feels no gravity
  (`PlayerSpec.FirstStepOfJump`).
- `pause` outside RUNNING emits no directive. Only `setState` calls emit one.
- The jump flag is not part of the saved snapshot. A thread restored from a
  bundle saved in mid-jump holds a player with no flag off the centre, and
  resuming it does not bring the player back: with no flag there is no
  gravity and no landing, so it drifts at the saved vertical speed
  (`GameSpec.RestoreMidJumpDrifts`).

## Model

| member | source | states |
|---|---|---|
| PlayerSpec.Initial | app/src/main/java/com/therl/fliprunner/Player.java:53-62 | a new player is at rest at the origin with no jump |
| PlayerSpec.Reset | app/src/main/java/com/therl/fliprunner/Player.java:64-69 | position and velocity become zero; the jump flag is kept |
| PlayerSpec.SetJumping | app/src/main/java/com/therl/fliprunner/Player.java:100-109 | accepted iff no jump is active or the request is NONE; a refused request changes nothing; an accepted one sets the flag, keeps x, y, dx, and adds +3000 (UP) or -3000 (DOWN) to dy, or leaves dy for any other flag |
| PlayerSpec.Integrate | app/src/main/java/com/therl/fliprunner/Player.java:122-138 | dx is kept and x advances by elapsed*dx; dy changes by -10000*elapsed only for UP above the centre, by +10000*elapsed only for DOWN below it, and not otherwise; y advances by elapsed times the mean of old and new dy |
| PlayerSpec.Settle | app/src/main/java/com/therl/fliprunner/Player.java:140-148 | a jump at or past the centre against its direction snaps to y = 0, dy = 0, no jump; otherwise nothing changes; afterwards UP implies y > 0 and DOWN implies y < 0 |
| PlayerSpec.UpdatePhysics | app/src/main/java/com/therl/fliprunner/Player.java:122-149 | dx is kept and x advances by elapsed*dx; afterwards UP implies y > 0 and DOWN implies y < 0; the flag is kept or cleared with y = 0 and dy = 0; it is cleared exactly when the integrated y reached the centre |
| PlayerSpec.SaveState | app/src/main/java/com/therl/fliprunner/Player.java:74-79 | the bundle gains exactly the keys mX, mY, mDX, mDY, holding x, y, dx, dy; every other entry is kept |
| PlayerSpec.RestoreState | app/src/main/java/com/therl/fliprunner/Player.java:87-92 | x, y, dx, dy are read from the four keys; the jump flag is kept |
| PlayerSpec.InitialConsistent | app/src/main/java/com/therl/fliprunner/Player.java:53-62 | a new player satisfies the consistency invariant |
| PlayerSpec.SetJumpingKeepsConsistent | app/src/main/java/com/therl/fliprunner/Player.java:100-109 | an up or down request keeps the invariant: a valid flag, no jump means at rest on the centre, no jump on the wrong side |
| PlayerSpec.UpdatePhysicsKeepsConsistent | app/src/main/java/com/therl/fliprunner/Player.java:122-149 | a physics step of any elapsed time keeps the consistency invariant |
| PlayerSpec.ResetKeepsConsistent | app/src/main/java/com/therl/fliprunner/Player.java:64-69 | reset keeps the invariant even though it keeps the jump flag |
| PlayerSpec.SecondJumpRefused | app/src/main/java/com/therl/fliprunner/Player.java:100-102 | after an accepted up or down jump, any further non-NONE request is refused and changes nothing |
| PlayerSpec.GravityOpposesJump | app/src/main/java/com/therl/fliprunner/Player.java:126-148 | for an UP jump above the centre (DOWN below it) and positive elapsed time, a step either keeps the jump with dy strictly lower (higher) or lands it at y = 0, dy = 0 |
| PlayerSpec.FirstStepOfJump | app/src/main/java/com/therl/fliprunner/Player.java:126-138 | from rest, a jump's first step feels no gravity: y becomes ±3000*elapsed and dy stays ±3000 |
| PlayerSpec.ZeroElapsedStepCancelsJump | app/src/main/java/com/therl/fliprunner/Player.java:140-148 | a zero-elapsed step right after a jump from rest returns the player to its state before the request |
| PlayerSpec.ZeroElapsedStepIsIdle | app/src/main/java/com/therl/fliprunner/Player.java:122-149 | after any step, a further zero-elapsed step changes nothing |
| PlayerSpec.ResetMidJump | app/src/main/java/com/therl/fliprunner/Player.java:64-69 | after reset in mid-jump, up and down are both refused; the next step of any elapsed time leaves the player at rest with no jump, and a swipe is then accepted |
| PlayerSpec.SnapshotRoundTrip | app/src/main/java/com/therl/fliprunner/Player.java:74-92 | restoring a saved bundle gives back x, y, dx, dy, and the restoring player's own jump flag |
| PlayerImpl.Player.constructor | app/src/main/java/com/therl/fliprunner/Player.java:53-62 | the new object is the initial player, with a 20 by 20 box |
| PlayerImpl.Player.Reset | app/src/main/java/com/therl/fliprunner/Player.java:64-69 | the fields end as PlayerSpec.Reset of the old state; width and height are unchanged |
| PlayerImpl.Player.SaveState | app/src/main/java/com/therl/fliprunner/Player.java:74-79 | returns the bundle PlayerSpec.SaveState gives for the current state |
| PlayerImpl.Player.RestoreState | app/src/main/java/com/therl/fliprunner/Player.java:87-92 | the fields end as PlayerSpec.RestoreState of the old state |
| PlayerImpl.Player.SetJumping | app/src/main/java/com/therl/fliprunner/Player.java:100-109 | new state and result are PlayerSpec.SetJumping of the old state |
| PlayerImpl.Player.UpdatePhysics | app/src/main/java/com/therl/fliprunner/Player.java:122-149 | the fields end as PlayerSpec.UpdatePhysics of the old state |
| GameSpec.DirectiveFor | app/src/main/java/com/therl/fliprunner/GameSurface.java:211-238 | the directive text is empty; it hides the status text exactly in RUNNING |
| GameSpec.Initial | app/src/main/java/com/therl/fliprunner/GameSurface.java:70-90 | a new thread has mode 0, clock 0, no obstacles and an initial player |
| GameSpec.SetState | app/src/main/java/com/therl/fliprunner/GameSurface.java:211-212 | the mode becomes the given value; clock, obstacles and player are kept |
| GameSpec.Start | app/src/main/java/com/therl/fliprunner/GameSurface.java:93-102 | RUNNING, clock = now + 100, exactly one new obstacle appended after the old ones, player reset with its jump flag kept |
| GameSpec.Pause | app/src/main/java/com/therl/fliprunner/GameSurface.java:107-111 | RUNNING becomes PAUSE with nothing else changed; any other mode changes nothing |
| GameSpec.PauseDirective | app/src/main/java/com/therl/fliprunner/GameSurface.java:107-111 | a directive is emitted exactly when the mode was RUNNING, and it shows the status text |
| GameSpec.Unpause | app/src/main/java/com/therl/fliprunner/GameSurface.java:255-261 | from any mode: RUNNING with clock = now + 100; obstacles and player kept |
| GameSpec.Restore | app/src/main/java/com/therl/fliprunner/GameSurface.java:120-125 | from any mode: PAUSE, player loaded from the snapshot; clock and obstacles kept |
| GameSpec.Save | app/src/main/java/com/therl/fliprunner/GameSurface.java:159-166 | a missing bundle stays missing; a present one gets the player's snapshot and then holds all four keys |
| GameSpec.Touch | app/src/main/java/com/therl/fliprunner/GameSurface.java:268-283 | handled iff the action is a touch-down in READY or PAUSE; READY starts the game, PAUSE unpauses; an unhandled touch changes nothing |
| GameSpec.Swipe | app/src/main/java/com/therl/fliprunner/GameSurface.java:288-308 | outside RUNNING: not handled, nothing changes; in RUNNING the result and the player are exactly the player's setJumping answer and state |
| GameSpec.Elapsed | app/src/main/java/com/therl/fliprunner/GameSurface.java:333 | the elapsed seconds times 1000 are exactly the milliseconds between the two clock readings, so they are non-negative when the clock is not in the future and zero at the same instant |
| GameSpec.AdvanceAll | app/src/main/java/com/therl/fliprunner/GameSurface.java:335-337 | the list keeps its length and each obstacle, in order, is advanced by the same elapsed time |
| GameSpec.Tick | app/src/main/java/com/therl/fliprunner/GameSurface.java:327-339 | with the clock in the future nothing changes; otherwise the clock becomes now and the player and all obstacles are advanced by the same elapsed time; the clock never decreases |
| GameSpec.Frame | app/src/main/java/com/therl/fliprunner/GameSurface.java:134 | a loop iteration ticks only in RUNNING and changes nothing otherwise |
| GameSpec.ApplyKeepsConsistent | app/src/main/java/com/therl/fliprunner/GameSurface.java:268-308 | any single input, mode change or loop iteration keeps the player consistent and drops no obstacle |
| GameSpec.RunKeepsConsistent | app/src/main/java/com/therl/fliprunner/GameSurface.java:93-339 | over any sequence of inputs, mode changes and loop iterations between restores, a consistent player stays consistent and the obstacle list never shrinks |
| GameSpec.PauseThenTouchResumes | app/src/main/java/com/therl/fliprunner/GameSurface.java:268-283 | pause is idempotent; a touch-down after a pause is handled and returns to RUNNING with the clock re-based, nothing else changed |
| GameSpec.RepeatedTickKeepsPlayer | app/src/main/java/com/therl/fliprunner/GameSurface.java:327-339 | a second tick at the same instant leaves the player and the clock as the first tick left them |
| GameSpec.ZeroElapsedTickCancelsJump | app/src/main/java/com/therl/fliprunner/GameSurface.java:332-334 | in RUNNING, a swipe up from rest is accepted, but a loop iteration at the last tick's instant puts the player back as before the swipe |
| GameSpec.SnapshotRoundTrip | app/src/main/java/com/therl/fliprunner/GameSurface.java:120-125 | restoring what the thread saved gives back x, y, dx, dy, keeps the restoring thread's jump flag, clock and obstacles, and forces PAUSE |
| GameSpec.RestoreMidJumpDrifts | app/src/main/java/com/therl/fliprunner/GameSurface.java:120-125 | a fresh thread restored from a bundle with non-zero dy and resumed has a flagless player moving at the saved speed, which is inconsistent after the first tick and after any later one |
| GameSpec.OpeningScenario | app/src/main/java/com/therl/fliprunner/GameSurface.java:268-292 | from READY, a tap at t, a swipe up and a loop iteration at t + 1100 give RUNNING, one obstacle advanced by 1 s, and the player at y = 3000 with dy = 3000 still jumping up |
| GameImpl.GameThread.constructor | app/src/main/java/com/therl/fliprunner/GameSurface.java:78-91 | the new thread is GameSpec.Initial with a fresh player |
| GameImpl.GameThread.SetStateWithMessage | app/src/main/java/com/therl/fliprunner/GameSurface.java:202-240 | only the mode changes, and the directive depends on the mode alone, not on the message |
| GameImpl.GameThread.SetState | app/src/main/java/com/therl/fliprunner/GameSurface.java:190-194 | as GameSpec.SetState, emitting DirectiveFor(mode) |
| GameImpl.GameThread.DoStart | app/src/main/java/com/therl/fliprunner/GameSurface.java:93-102 | new state is GameSpec.Start of the old one with the given new obstacle; emits the RUNNING directive |
| GameImpl.GameThread.Pause | app/src/main/java/com/therl/fliprunner/GameSurface.java:107-111 | new state is GameSpec.Pause of the old one; emits GameSpec.PauseDirective |
| GameImpl.GameThread.RestoreState | app/src/main/java/com/therl/fliprunner/GameSurface.java:120-125 | new state is GameSpec.Restore of the old one; emits the PAUSE directive |
| GameImpl.GameThread.SaveState | app/src/main/java/com/therl/fliprunner/GameSurface.java:159-166 | returns GameSpec.Save of the current state and changes nothing |
| GameImpl.GameThread.Unpause | app/src/main/java/com/therl/fliprunner/GameSurface.java:255-261 | new state is GameSpec.Unpause of the old one; emits the RUNNING directive |
| GameImpl.GameThread.OnTouch | app/src/main/java/com/therl/fliprunner/GameSurface.java:268-283 | new state and result are GameSpec.Touch, a start appending the given new obstacle; a directive is emitted exactly when handled |
| GameImpl.GameThread.OnSwipeTop | app/src/main/java/com/therl/fliprunner/GameSurface.java:288-295 | new state and result are GameSpec.Swipe with UP |
| GameImpl.GameThread.OnSwipeBottom | app/src/main/java/com/therl/fliprunner/GameSurface.java:301-308 | new state and result are GameSpec.Swipe with DOWN |
| GameImpl.GameThread.UpdatePhysics | app/src/main/java/com/therl/fliprunner/GameSurface.java:327-339 | new state is GameSpec.Tick of the old one; the loop advances each obstacle in place |
| GameImpl.GameThread.RunIteration | app/src/main/java/com/therl/fliprunner/GameSurface.java:134 | new state is GameSpec.Frame of the old one |

## Left out

- Threads and locks: the `run` loop itself, `setRunning`, the `mRunLock` and surface-holder synchronisation, and the join-with-retry in `surfaceDestroyed`. Each operation is modelled as atomic, and one loop iteration as `RunIteration`.
- Drawing: both `doDraw` methods, the background bitmap, and `setSurfaceSize`. The canvas size and the player's box only matter for drawing.
- The `Handler`/`Message`/`Bundle` relay of the status text. It becomes the returned `Directive`.
- The wall clock. It is the `now` parameter.
- IEEE doubles: rounding, NaN, infinities. Also the `long` overflow of `now - lastTime`.
- The `Obstacle` class. It is not part of this model, so obstacles are an opaque type: each start is given its new obstacle, and the step is a given function.
- PlayerSpec.RestoreState: requires the four snapshot keys. Android's default for a missing key is not modelled.
- PlayerImpl.Player.SaveState: returns the updated bundle rather than mutating a shared bundle object. Aliasing of the bundle is not modelled.
- GameSpec.RunKeepsConsistent: excludes `restoreState`, which can load any snapshot and so break the invariant (`GameSpec.RestoreMidJumpDrifts` shows a bundle saved mid-jump doing so).
- `GameActivity` and `MainActivity`: lifecycle and navigation glue. The activity's calls into the thread are modelled as the thread's own operations: `setState(STATE_READY)` as `ModeSet`, `onPause` as `FocusLost`, the forwarded touch and swipes as `TouchInput`, `SwipeTopInput` and `SwipeBottomInput`, and `restoreState`/`saveState` as `GameThread.RestoreState`/`GameThread.SaveState` (restore is kept outside `Run`).
- The outer `GameSurface` methods that forward to the thread, and the gesture recogniser that classifies swipes. They are not part of this model.
