/**
 * The game objects: the shared physical state of `GameObject`, its four
 * directional sub-rectangles and its per-tick motion, and the player, enemy,
 * brick and end-flag specialisations with their own rules.
 */
module Entities {

  import opened Geometry

  /** Gravity every object is created with. */
  const Gravity: real := 0.38

  /** Side length of the 48-pixel sprites (Mario, Goomba, ordinary and ground bricks, the flag). */
  const Tile: nat := 48

  /** Upward speed a jump starts with. */
  const JumpSpeed: real := 10.0

  /** Horizontal walking speed. */
  const WalkSpeed: real := 5.0

  /** Frames in the brick-breaking animation strip. */
  const BrickFrames: int := 4

  /** Physical state shared by every object (`GameObject`); the sprite is left out. */
  datatype Body = Body(
    x: real, y: real,
    velX: real, velY: real,
    width: nat, height: nat,
    falling: bool, jumping: bool)

  /** State after the `GameObject` constructor: at rest, falling, not jumping. */
  function Spawned(x: real, y: real, width: nat, height: nat): Body
  {
    Body(x, y, 0.0, 0.0, width, height, true, false)
  }

  /** `getBounds`: the whole box at the truncated position. */
  function Bounds(b: Body): Rect
  {
    Rect(Trunc(b.x), Trunc(b.y), b.width, b.height)
  }

  datatype Side = TopSide | BottomSide | LeftSide | RightSide

  /** `getTopBounds`, `getBottomBounds`, `getLeftBounds`, `getRightBounds`. */
  function SideBounds(b: Body, side: Side): Rect
  {
    var x := Trunc(b.x);
    var y := Trunc(b.y);
    var w := b.width;
    var h := b.height;
    match side
    case TopSide => Rect(x + w / 6, y, 2 * w / 3, h / 2)
    case BottomSide => Rect(x + w / 6, y + h / 2, 2 * w / 3, h / 2)
    case LeftSide => Rect(x, y + h / 4, w / 4, h / 2)
    case RightSide => Rect(x + 3 * w / 4, y + h / 4, w / 4, h / 2)
  }

  /** The side a moving object leads with, and the side of an obstacle it meets. */
  function Opposite(side: Side): Side
  {
    match side
    case TopSide => BottomSide
    case BottomSide => TopSide
    case LeftSide => RightSide
    case RightSide => LeftSide
  }

  lemma DivisionBounds(w: nat)
    ensures w / 6 + 2 * w / 3 <= w
    ensures 3 * w / 4 + w / 4 <= w
    ensures w / 4 <= 3 * w / 4
    ensures w / 4 + w / 2 <= w
    ensures w / 2 + w / 2 <= w
  {
    var q6, r6 := w / 6, w % 6;
    assert w == 6 * q6 + r6;
    assert 2 * w == 3 * (4 * q6) + 2 * r6;
    assert 2 * w / 3 == 4 * q6 + 2 * r6 / 3;
    var q4, r4 := w / 4, w % 4;
    assert w == 4 * q4 + r4;
    assert 3 * w == 4 * (3 * q4) + 3 * r4;
    assert 3 * w / 4 == 3 * q4 + 3 * r4 / 4;
    assert w / 2 == 2 * q4 + r4 / 2;
  }

  /** Every sub-rectangle lies inside the object's box. */
  lemma SideBoundsWithin(b: Body, side: Side)
    ensures Within(SideBounds(b, side), Bounds(b))
  {
    DivisionBounds(b.width);
    DivisionBounds(b.height);
  }

  /**
   * The top half ends exactly where the bottom half starts, and the left
   * quarter ends before the right quarter starts, so an object's opposite
   * sub-rectangles never overlap each other.
   */
  lemma OppositeSidesApart(b: Body)
    ensures SideBounds(b, TopSide).y + SideBounds(b, TopSide).height == SideBounds(b, BottomSide).y
    ensures SideBounds(b, LeftSide).x + SideBounds(b, LeftSide).width <= SideBounds(b, RightSide).x
    ensures !Intersects(SideBounds(b, TopSide), SideBounds(b, BottomSide))
    ensures !Intersects(SideBounds(b, LeftSide), SideBounds(b, RightSide))
  {
    DivisionBounds(b.width);
  }

  /** Neither jumping nor falling at the same time. */
  predicate OneVerticalMode(b: Body)
  {
    !(b.jumping && b.falling)
  }

  /** `GameObject.updateLocation`: one tick of jump, fall and walk. */
  function UpdateLocation(b: Body): (r: Body)
    ensures r.x == b.x + b.velX
    ensures r.velX == b.velX && r.width == b.width && r.height == b.height
    ensures b.falling && !b.jumping && b.velY >= 0.0 ==>
              r.y >= b.y && r.velY == b.velY + Gravity && r.falling && !r.jumping
    ensures b.jumping && b.velY <= 0.0 ==> r.falling && !r.jumping
    ensures b.jumping && !b.falling && b.velY > Gravity ==> r.jumping && r.y < b.y && r.velY < b.velY
    ensures !b.jumping && !b.falling ==> r.y == b.y && r.velY == b.velY
    ensures OneVerticalMode(b) ==> OneVerticalMode(r)
  {
    var b1 :=
      if b.jumping && b.velY <= 0.0 then b.(jumping := false, falling := true)
      else if b.jumping then
        var v := b.velY - Gravity;
        b.(velY := v, y := b.y - v)
      else b;
    var b2 :=
      if b1.falling then b1.(y := b1.y + b1.velY, velY := b1.velY + Gravity)
      else b1;
    b2.(x := b2.x + b2.velX)
  }

  /** `n` consecutive ticks with no collision handling in between. */
  function Ticks(b: Body, n: nat): Body
  {
    if n == 0 then b else UpdateLocation(Ticks(b, n - 1))
  }

  /**
   * Under gravity alone a falling object speeds up by 0.38 per tick and never
   * rises; from the second tick on it is strictly lower than where it started.
   */
  lemma {:induction false} FallingDescends(b: Body, n: nat)
    requires b.falling && !b.jumping && b.velY >= 0.0
    ensures Ticks(b, n).falling && !Ticks(b, n).jumping
    ensures Ticks(b, n).velY == b.velY + n as real * Gravity
    ensures Ticks(b, n).y >= b.y
    ensures n >= 2 ==> Ticks(b, n).y > b.y
  {
    if n > 0 {
      FallingDescends(b, n - 1);
      var p := Ticks(b, n - 1);
      if n >= 2 {
        assert p.velY > 0.0;
      }
    }
  }

  // ---------------------------------------------------------------- Mario

  /** `MarioForm`: the fire form takes priority over the super form for drawing. */
  datatype MarioForm = MarioForm(isSuper: bool, isFire: bool)

  const SmallForm := MarioForm(false, false)

  predicate IsSmall(f: MarioForm)
  {
    !f.isSuper && !f.isFire
  }

  datatype Mario = Mario(
    body: Body,
    lives: int,
    coins: int,
    points: int,
    form: MarioForm,
    toRight: bool)

  /** `new Mario(x, y)`: 48x48, three lives, nothing collected, small, facing right. */
  function NewMario(x: real, y: real): Mario
  {
    Mario(Spawned(x, y, Tile, Tile), 3, 0, 0, SmallForm, true)
  }

  /** Mario may start a jump only when standing (neither jumping nor falling). */
  predicate CanJump(m: Mario)
  {
    !m.body.jumping && !m.body.falling
  }

  /** `Mario.jump`, without the jump sound (the engine records it). */
  function Jump(m: Mario): (r: Mario)
    ensures CanJump(m) ==> r.body.jumping && r.body.velY == JumpSpeed && OneVerticalMode(r.body)
    ensures !CanJump(m) ==> r == m
    ensures r.body.x == m.body.x && r.body.y == m.body.y && r.body.velX == m.body.velX
  {
    if CanJump(m) then m.(body := m.body.(jumping := true, velY := JumpSpeed)) else m
  }

  /**
   * `Mario.move`: walking right always sets speed 5; walking left sets -5 only
   * while Mario is right of the camera's left edge; facing follows the key.
   */
  function Move(m: Mario, toRight: bool, cameraX: real): (r: Mario)
    ensures r.toRight == toRight
    ensures toRight ==> r.body.velX == WalkSpeed
    ensures !toRight && cameraX < m.body.x ==> r.body.velX == -WalkSpeed
    ensures !toRight && cameraX >= m.body.x ==> r.body.velX == m.body.velX
    ensures r.body.x == m.body.x && r.body.y == m.body.y && r.lives == m.lives
  {
    var b :=
      if toRight then m.body.(velX := WalkSpeed)
      else if cameraX < m.body.x then m.body.(velX := -WalkSpeed)
      else m.body;
    m.(body := b, toRight := toRight)
  }

  /** Outcome of `Mario.onTouchEnemy`: Mario afterwards and whether he died. */
  datatype Touch = Touch(mario: Mario, dies: bool)

  /**
   * `Mario.onTouchEnemy`: a small Mario loses a life and dies; a super or fire
   * Mario shrinks back to small (48x48) and survives.
   */
  function OnTouchEnemy(m: Mario): (t: Touch)
    ensures t.dies <==> IsSmall(m.form)
    ensures t.dies ==> t.mario == m.(lives := m.lives - 1)
    ensures !t.dies ==> t.mario.lives == m.lives && t.mario.form == SmallForm
    ensures IsSmall(t.mario.form)
    ensures t.mario.points == m.points && t.mario.toRight == m.toRight
    ensures t.mario.body == m.body.(width := t.mario.body.width, height := t.mario.body.height)
    ensures !t.dies ==> t.mario.body.width == Tile && t.mario.body.height == Tile
  {
    if IsSmall(m.form) then Touch(m.(lives := m.lives - 1), true)
    else Touch(m.(form := SmallForm, body := m.body.(width := Tile, height := Tile)), false)
  }

  /** `Mario.resetLocation`: back to x = 50 at rest, falling; y is kept. */
  function ResetLocation(m: Mario): (r: Mario)
    ensures r.body.x == 50.0 && r.body.y == m.body.y
    ensures r.body.velX == 0.0 && r.body.velY == 0.0
    ensures r.body.falling && !r.body.jumping
    ensures r.lives == m.lives && r.points == m.points && r.form == m.form
  {
    m.(body := m.body.(velX := 0.0, velY := 0.0, x := 50.0, jumping := false, falling := true))
  }

  // -------------------------------------------------------------- enemies

  /** The only enemy the game creates. */
  datatype Enemy = Goomba(body: Body)

  /** A Goomba's walking speed. */
  const GoombaSpeed: real := 3.0

  /** `new Goomba(x, y)`: the `Enemy` constructor clears falling and jumping; walks right at 3. */
  function NewGoomba(x: real, y: real): Enemy
  {
    Goomba(Spawned(x, y, Tile, Tile).(falling := false, velX := GoombaSpeed))
  }

  // --------------------------------------------------------------- bricks

  /**
   * The brick classes. An `OrdinaryBrick` carries its breaking animation
   * state: `breaking` (never set true by any code) and the frames left.
   */
  datatype BrickKind =
    | Ordinary(breaking: bool, frames: int)
    | Ground
    | PipeKind

  datatype Brick = Brick(kind: BrickKind, body: Body)

  function NewOrdinaryBrick(x: real, y: real): Brick
  {
    Brick(Ordinary(false, BrickFrames), Spawned(x, y, Tile, Tile))
  }

  function NewGroundBrick(x: real, y: real): Brick
  {
    Brick(Ground, Spawned(x, y, Tile, Tile))
  }

  /** A pipe occupies 96x96. */
  function NewPipe(x: real, y: real): Brick
  {
    Brick(PipeKind, Spawned(x, y, 2 * Tile, 2 * Tile))
  }

  /** Only ordinary bricks are breakable. */
  predicate Breakable(b: Brick)
  {
    b.kind.Ordinary?
  }

  /** `OrdinaryBrick.animate`: a breaking brick uses up one frame per call. */
  function Animate(b: Brick): (r: Brick)
    requires b.kind.Ordinary?
    ensures r.kind.Ordinary? && r.body == b.body && r.kind.breaking == b.kind.breaking
    ensures r.kind.frames == (if b.kind.breaking then b.kind.frames - 1 else b.kind.frames)
  {
    if b.kind.breaking then b.(kind := b.kind.(frames := b.kind.frames - 1)) else b
  }

  // ------------------------------------------------------------- end flag

  datatype EndFlag = EndFlag(body: Body, touched: bool)

  /** `new EndFlag(x, y)`: the 48x48 flag sprite, not yet touched. */
  function NewEndFlag(x: real, y: real): EndFlag
  {
    EndFlag(Spawned(x, y, Tile, Tile), false)
  }

  /** Height the touched flag slides down to. */
  const FlagGround: real := 576.0

  /**
   * `EndFlag.updateLocation`: an untouched flag stays put; a touched flag
   * falls and stops once its bottom reaches 576.
   */
  function UpdateFlag(f: EndFlag): (r: EndFlag)
    ensures !f.touched ==> r == f
    ensures r.touched == f.touched
    ensures f.touched && f.body.y + f.body.height as real >= FlagGround && !f.body.jumping ==>
              r.body.y + r.body.height as real == FlagGround && r.body.velY == 0.0
    ensures f.touched && f.body.y + f.body.height as real < FlagGround ==> r.body == UpdateLocation(f.body)
  {
    if !f.touched then f
    else
      var b :=
        if f.body.y + f.body.height as real >= FlagGround
        then f.body.(falling := false, velY := 0.0, y := FlagGround - f.body.height as real)
        else f.body;
      f.(body := UpdateLocation(b))
  }

  /** A touched flag at rest on the ground: nothing will move it again. */
  predicate Settled(f: EndFlag)
  {
    && f.touched
    && f.body.y + f.body.height as real == FlagGround
    && !f.body.falling && !f.body.jumping
    && f.body.velY == 0.0 && f.body.velX == 0.0
  }

  /** `n` consecutive flag updates. */
  function FlagTicks(f: EndFlag, n: nat): EndFlag
    decreases n
  {
    if n == 0 then f else FlagTicks(UpdateFlag(f), n - 1)
  }

  /** A settled flag stays exactly where it is, however many ticks pass. */
  lemma {:induction false} FlagStays(f: EndFlag, n: nat)
    requires Settled(f)
    ensures FlagTicks(f, n) == f
  {
    if n > 0 {
      assert UpdateFlag(f) == f;
      FlagStays(f, n - 1);
    }
  }

  /**
   * A touched flag falling straight down reaches the ground and stays
   * there: `n` is any count of ticks whose accumulated gravity covers the
   * distance still to fall beyond the first step.
   */
  lemma {:induction false} FlagLands(f: EndFlag, n: nat)
    requires f.touched && f.body.falling && !f.body.jumping
    requires f.body.velY >= 0.0 && f.body.velX == 0.0
    requires n as real * Gravity >= FlagGround - (f.body.y + f.body.height as real) - f.body.velY
    ensures Settled(FlagTicks(f, n + 2))
    decreases n
  {
    var g := UpdateFlag(f);
    if f.body.y + f.body.height as real >= FlagGround {
      assert Settled(g);
      FlagStays(g, n + 1);
    } else if n == 0 {
      assert g.body.y + g.body.height as real >= FlagGround;
      assert Settled(UpdateFlag(g));
      FlagStays(UpdateFlag(g), 0);
    } else {
      FlagLands(g, n - 1);
    }
  }
}
