/**
 * The scrolling camera: a deadzone that follows Mario to the right and a
 * shake that, for 60 moves, overrides the requested shift.
 */
module Cameras {

  /** `frameNumber` counts the shake moves still to come. */
  datatype Camera = Camera(x: real, y: real, frameNumber: int, shaking: bool)

  /** `new Camera()`. */
  const NewCamera := Camera(0.0, 0.0, 25, false)

  /** Moves a shake lasts. */
  const ShakeMoves: nat := 60

  /** Horizontal amplitude of one shake move. */
  const ShakeStep: real := 4.0

  /** Lead Mario may have over the camera before it follows. */
  const Deadzone: real := 600.0

  /** `Camera.shakeCamera`. */
  function Shake(c: Camera): Camera
  {
    c.(shaking := true, frameNumber := ShakeMoves)
  }

  /** A shake move is due. */
  predicate ShakeActive(c: Camera)
  {
    c.shaking && c.frameNumber > 0
  }

  /**
   * `Camera.moveCam`: during a shake the arguments are ignored and x jumps by
   * +4 on an even count, -4 on an odd one; otherwise both shifts apply.
   */
  function MoveCam(c: Camera, dx: real, dy: real): (r: Camera)
    ensures ShakeActive(c) ==> r.y == c.y && r.frameNumber == c.frameNumber - 1
    ensures ShakeActive(c) ==> r.x == c.x + (if c.frameNumber % 2 == 0 then ShakeStep else -ShakeStep)
    ensures !ShakeActive(c) ==> r.x == c.x + dx && r.y == c.y + dy && r.frameNumber == c.frameNumber
    ensures c.frameNumber >= 0 ==> r.frameNumber >= 0
  {
    var c1 :=
      if ShakeActive(c) then
        var direction := if c.frameNumber % 2 == 0 then 1 else -1;
        c.(x := c.x + ShakeStep * direction as real, frameNumber := c.frameNumber - 1)
      else c.(x := c.x + dx, y := c.y + dy);
    if c1.frameNumber < 0 then c1.(shaking := false) else c1
  }

  /** The camera after a run of `moveCam` calls, one per requested (dx, dy). */
  function MoveCamAll(c: Camera, shifts: seq<(real, real)>): Camera
    decreases |shifts|
  {
    if |shifts| == 0 then c
    else
      var prev := MoveCamAll(c, shifts[..|shifts| - 1]);
      MoveCam(prev, shifts[|shifts| - 1].0, shifts[|shifts| - 1].1)
  }

  /**
   * After a shake, each of the next 60 moves ignores its arguments and x
   * alternates +4, -4, ... starting with +4; y is untouched and the counter
   * never drops below zero.
   */
  lemma {:induction false} ShakeAlternates(c: Camera, shifts: seq<(real, real)>)
    requires |shifts| <= ShakeMoves
    ensures var r := MoveCamAll(Shake(c), shifts);
            && r.x == c.x + (if |shifts| % 2 == 1 then ShakeStep else 0.0)
            && r.y == c.y
            && r.frameNumber == ShakeMoves - |shifts|
            && r.shaking
    decreases |shifts|
  {
    if |shifts| > 0 {
      ShakeAlternates(c, shifts[..|shifts| - 1]);
    }
  }

  /**
   * A whole shake is net zero, and the first move after it applies the
   * requested shift again.
   */
  lemma ShakeReturns(c: Camera, shifts: seq<(real, real)>, dx: real, dy: real)
    requires |shifts| == ShakeMoves
    ensures MoveCamAll(Shake(c), shifts).x == c.x
    ensures MoveCamAll(Shake(c), shifts).y == c.y
    ensures MoveCam(MoveCamAll(Shake(c), shifts), dx, dy).x == c.x + dx
    ensures MoveCam(MoveCamAll(Shake(c), shifts), dx, dy).y == c.y + dy
  {
    ShakeAlternates(c, shifts);
  }

  /**
   * `GameEngine.updateCamera`: the camera follows Mario's speed only while he
   * moves right and is more than 600 ahead of it. Outside a shake it never
   * moves left or vertically, and it moves exactly when that condition holds.
   */
  function UpdateCamera(c: Camera, marioX: real, marioVelX: real): (r: Camera)
    ensures !ShakeActive(c) ==> r.y == c.y && r.x >= c.x
    ensures !ShakeActive(c) ==> (r.x > c.x <==> marioVelX > 0.0 && marioX - Deadzone > c.x)
    ensures !ShakeActive(c) && r.x > c.x ==> marioX - r.x == (marioX - c.x) - marioVelX
    ensures ShakeActive(c) ==> r.y == c.y && r.frameNumber == c.frameNumber - 1
  {
    var shift := if marioVelX > 0.0 && marioX - Deadzone > c.x then marioVelX else 0.0;
    MoveCam(c, shift, 0.0)
  }
}
