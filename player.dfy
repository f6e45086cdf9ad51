/** The player entity as an object whose methods overwrite its fields in
    sequence; each method is proved to leave the state the matching function
    of PlayerSpec computes. */
module PlayerImpl {
  import PlayerSpec

  class Player {
    var x: real
    var y: real
    var dx: real
    var dy: real
    var jumping: int
    /** Bounding box, used only for drawing. */
    var width: int
    var height: int

    /** The physics-relevant state as a value. */
    function State(): PlayerSpec.PlayerState
      reads this
    {
      PlayerSpec.PlayerState(x, y, dx, dy, jumping)
    }

    constructor ()
      ensures State() == PlayerSpec.Initial()
      ensures width == 20 && height == 20
    {
      x, y, dx, dy := 0.0, 0.0, 0.0, 0.0;
      jumping := PlayerSpec.JumpingNone;
      width, height := 20, 20;
    }

    method Reset()
      modifies this
      ensures State() == PlayerSpec.Reset(old(State()))
      ensures width == old(width) && height == old(height)
    {
      x := 0.0;
      y := 0.0;
      dx := 0.0;
      dy := 0.0;
    }

    /** Writes the four snapshot entries into the bundle and returns it. */
    method SaveState(b: PlayerSpec.Bundle) returns (r: PlayerSpec.Bundle)
      ensures r == PlayerSpec.SaveState(b, State())
    {
      r := b;
      r := r[PlayerSpec.KeyX := x];
      r := r[PlayerSpec.KeyY := y];
      r := r[PlayerSpec.KeyDX := dx];
      r := r[PlayerSpec.KeyDY := dy];
    }

    method RestoreState(b: PlayerSpec.Bundle)
      requires PlayerSpec.HasSnapshot(b)
      modifies this
      ensures State() == PlayerSpec.RestoreState(old(State()), b)
      ensures width == old(width) && height == old(height)
    {
      x := b[PlayerSpec.KeyX];
      y := b[PlayerSpec.KeyY];
      dx := b[PlayerSpec.KeyDX];
      dy := b[PlayerSpec.KeyDY];
    }

    method SetJumping(request: int) returns (accepted: bool)
      modifies this
      ensures (State(), accepted) == PlayerSpec.SetJumping(old(State()), request)
      ensures width == old(width) && height == old(height)
    {
      if jumping != PlayerSpec.JumpingNone && request != PlayerSpec.JumpingNone {
        return false;
      }
      jumping := request;
      if request == PlayerSpec.JumpingUp {
        dy := dy + PlayerSpec.JumpSpeed as real;
      } else if request == PlayerSpec.JumpingDown {
        dy := dy - PlayerSpec.JumpSpeed as real;
      }
      return true;
    }

    method UpdatePhysics(elapsed: real)
      modifies this
      ensures State() == PlayerSpec.UpdatePhysics(old(State()), elapsed)
      ensures width == old(width) && height == old(height)
    {
      var ddx := 0.0;
      var ddy := 0.0;
      if y > 0.0 && jumping == PlayerSpec.JumpingUp {
        ddy := -(PlayerSpec.DownAccel as real) * elapsed;
      } else if y < 0.0 && jumping == PlayerSpec.JumpingDown {
        ddy := PlayerSpec.DownAccel as real * elapsed;
      }
      var dxOld := dx;
      var dyOld := dy;
      dx := dx + ddx;
      dy := dy + ddy;
      x := x + elapsed * (dx + dxOld) / 2.0;
      y := y + elapsed * (dy + dyOld) / 2.0;
      assert State() == PlayerSpec.Integrate(old(State()), elapsed);
      if y <= 0.0 && jumping == PlayerSpec.JumpingUp {
        y := 0.0;
        dy := 0.0;
        var _ := SetJumping(PlayerSpec.JumpingNone);
      } else if y >= 0.0 && jumping == PlayerSpec.JumpingDown {
        y := 0.0;
        dy := 0.0;
        var _ := SetJumping(PlayerSpec.JumpingNone);
      }
    }
  }
}
