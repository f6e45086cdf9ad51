/** The game thread as an object: its mode, clock and obstacle list are
    fields its methods overwrite, and it owns one Player object. Each method
    is proved to leave the state the matching function of GameSpec computes.
    Locking and drawing are not modelled: every method runs atomically. */
module GameImpl {
  import PlayerSpec
  import GameSpec
  import PlayerImpl

  class GameThread<O> {
    const player: PlayerImpl.Player
    /** One physics step of an obstacle. */
    const advance: (O, real) -> O

    var mode: int
    var lastTime: int
    var obstacles: seq<O>

    function State(): GameSpec.Game<O>
      reads this, player
    {
      GameSpec.Game(mode, lastTime, obstacles, player.State())
    }

    constructor (advance: (O, real) -> O)
      ensures State() == GameSpec.Initial()
      ensures this.advance == advance
      ensures fresh(player)
    {
      this.advance := advance;
      mode := 0;
      lastTime := 0;
      obstacles := [];
      player := new PlayerImpl.Player();
    }

    /** setState(mode, message): the message is not shown (its use is
        commented out in the thread), so only the mode decides the directive. */
    method SetStateWithMessage(newMode: int, message: GameSpec.Option<string>) returns (d: GameSpec.Directive)
      modifies this
      ensures State() == GameSpec.SetState(old(State()), newMode)
      ensures d == GameSpec.DirectiveFor(newMode)
    {
      mode := newMode;
      if mode == GameSpec.StateRunning {
        d := GameSpec.Directive("", GameSpec.Invisible);
      } else {
        var text := "";
        d := GameSpec.Directive(text, GameSpec.Visible);
      }
    }

    method SetState(newMode: int) returns (d: GameSpec.Directive)
      modifies this
      ensures State() == GameSpec.SetState(old(State()), newMode)
      ensures d == GameSpec.DirectiveFor(newMode)
    {
      d := SetStateWithMessage(newMode, GameSpec.None);
    }

    /** doStart(), given the obstacle its `new Obstacle()` constructs. */
    method DoStart(now: int, obstacle: O) returns (d: GameSpec.Directive)
      modifies this, player
      ensures State() == GameSpec.Start(old(State()), now, obstacle)
      ensures d == GameSpec.DirectiveFor(GameSpec.StateRunning)
    {
      player.Reset();
      obstacles := obstacles + [obstacle];
      lastTime := now + GameSpec.GraceMs;
      d := SetState(GameSpec.StateRunning);
    }

    method Pause() returns (d: GameSpec.Option<GameSpec.Directive>)
      modifies this
      ensures State() == GameSpec.Pause(old(State()))
      ensures d == GameSpec.PauseDirective(old(State()))
    {
      d := GameSpec.None;
      if mode == GameSpec.StateRunning {
        var shown := SetState(GameSpec.StatePause);
        d := GameSpec.Some(shown);
      }
    }

    method RestoreState(b: PlayerSpec.Bundle) returns (d: GameSpec.Directive)
      requires PlayerSpec.HasSnapshot(b)
      modifies this, player
      ensures State() == GameSpec.Restore(old(State()), b)
      ensures d == GameSpec.DirectiveFor(GameSpec.StatePause)
    {
      d := SetState(GameSpec.StatePause);
      player.RestoreState(b);
    }

    /** saveState(map): writes the player's snapshot into a present bundle. */
    method SaveState(b: GameSpec.Option<PlayerSpec.Bundle>) returns (r: GameSpec.Option<PlayerSpec.Bundle>)
      ensures r == GameSpec.Save(State(), b)
    {
      r := b;
      if b.Some? {
        var saved := player.SaveState(b.value);
        r := GameSpec.Some(saved);
      }
    }

    method Unpause(now: int) returns (d: GameSpec.Directive)
      modifies this
      ensures State() == GameSpec.Unpause(old(State()), now)
      ensures d == GameSpec.DirectiveFor(GameSpec.StateRunning)
    {
      lastTime := now + GameSpec.GraceMs;
      d := SetState(GameSpec.StateRunning);
    }

    /** onTouch(event), with the event reduced to its action code; `obstacle`
        is the obstacle a start would construct. */
    method OnTouch(action: int, now: int, obstacle: O) returns (handled: bool, d: GameSpec.Option<GameSpec.Directive>)
      modifies this, player
      ensures (State(), handled) == GameSpec.Touch(old(State()), action, now, obstacle)
      ensures d == if handled then GameSpec.Some(GameSpec.DirectiveFor(GameSpec.StateRunning)) else GameSpec.None
    {
      var okStart := false;
      if action == GameSpec.ActionDown {
        okStart := true;
      }
      if okStart && mode == GameSpec.StateReady {
        var shown := DoStart(now, obstacle);
        return true, GameSpec.Some(shown);
      } else if mode == GameSpec.StatePause && okStart {
        var shown := Unpause(now);
        return true, GameSpec.Some(shown);
      }
      return false, GameSpec.None;
    }

    method OnSwipeTop() returns (handled: bool)
      modifies player
      ensures (State(), handled) == GameSpec.Swipe(old(State()), PlayerSpec.JumpingUp)
    {
      handled := false;
      if mode == GameSpec.StateRunning {
        handled := player.SetJumping(PlayerSpec.JumpingUp);
      }
    }

    method OnSwipeBottom() returns (handled: bool)
      modifies player
      ensures (State(), handled) == GameSpec.Swipe(old(State()), PlayerSpec.JumpingDown)
    {
      handled := false;
      if mode == GameSpec.StateRunning {
        handled := player.SetJumping(PlayerSpec.JumpingDown);
      }
    }

    /** The physics tick, with the wall clock passed in as `now` (ms). */
    method UpdatePhysics(now: int)
      modifies this, player
      ensures State() == GameSpec.Tick(old(State()), now, advance)
    {
      if lastTime > now {
        return;
      }
      var elapsed := (now - lastTime) as real / 1000.0;
      player.UpdatePhysics(elapsed);
      var i := 0;
      while i < |obstacles|
        modifies this
        invariant 0 <= i <= |obstacles| == |old(obstacles)|
        invariant mode == old(mode) && lastTime == old(lastTime)
        invariant forall k :: 0 <= k < i ==> obstacles[k] == advance(old(obstacles)[k], elapsed)
        invariant forall k :: i <= k < |obstacles| ==> obstacles[k] == old(obstacles)[k]
      {
        obstacles := obstacles[i := advance(obstacles[i], elapsed)];
        i := i + 1;
      }
      lastTime := now;
    }

    /** The state part of one iteration of the run loop. */
    method RunIteration(now: int)
      modifies this, player
      ensures State() == GameSpec.Frame(old(State()), now, advance)
    {
      if mode == GameSpec.StateRunning {
        UpdatePhysics(now);
      }
    }
  }
}
