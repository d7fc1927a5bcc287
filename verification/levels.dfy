/**
 * The level store (`Map1`) and the level-wide rules of `MapManager`: the
 * time budget, the latching end flag, the run-past distance that ends the
 * level, and the game-over test.
 */
module Levels {

  import opened Opt
  import opened Geometry
  import opened Entities

  /** World y below which nothing sinks: 720 - 96. */
  const BottomBorder: real := 624.0

  /** Seconds a freshly loaded level allows. */
  const TimeLimit: real := 400.0

  /** How far past the flag Mario must run before the level ends. */
  const RunPast: real := 320.0

  /**
   * `Map1`. Mario and the end flag stay unset when the map image has no pixel
   * for them; `bricks` are the soft (ordinary) bricks, `groundBricks` the
   * ground bricks and pipes.
   */
  datatype Level = Level(
    mario: Option<Mario>,
    bricks: seq<Brick>,
    groundBricks: seq<Brick>,
    revealedBricks: seq<Brick>,
    enemies: seq<Enemy>,
    endPoint: Option<EndFlag>,
    remainingTime: real)

  /** `new Map1(timeLimit, background)`: no entities yet. */
  function NewLevel(timeLimit: real): Level
  {
    Level(None, [], [], [], [], None, timeLimit)
  }

  /** The per-tick code dereferences Mario and the end flag without a null check. */
  predicate Playable(l: Level)
  {
    l.mario.Some? && l.endPoint.Some?
  }

  /** `getAllBricks`: the soft bricks followed by the ground bricks. */
  function AllBricks(l: Level): seq<Brick>
  {
    l.bricks + l.groundBricks
  }

  /** `addRevealedBrick`; the parameter type admits only ordinary bricks. */
  function AddRevealedBrick(l: Level, b: Brick): (r: Level)
    requires b.kind.Ordinary?
    ensures r.revealedBricks == l.revealedBricks + [b]
    ensures r.bricks == l.bricks && r.enemies == l.enemies && r.mario == l.mario
  {
    l.(revealedBricks := l.revealedBricks + [b])
  }

  /** The brick sits at position (x, y). */
  predicate At(b: Brick, x: real, y: real)
  {
    b.body.x == x && b.body.y == y
  }

  /** Drops the first brick at position (x, y) (Java removes the revealed brick object itself). */
  function RemoveAt(bricks: seq<Brick>, x: real, y: real): (r: seq<Brick>)
    ensures |r| <= |bricks|
  {
    if |bricks| == 0 then []
    else if At(bricks[0], x, y) then bricks[1..]
    else [bricks[0]] + RemoveAt(bricks[1..], x, y)
  }

  /** With the first brick at (x, y) at index i, exactly that brick goes and the rest keep their order. */
  lemma {:induction false} RemoveAtFirst(bricks: seq<Brick>, x: real, y: real, i: nat)
    requires i < |bricks| && At(bricks[i], x, y)
    requires forall j :: 0 <= j < i ==> !At(bricks[j], x, y)
    ensures RemoveAt(bricks, x, y) == bricks[..i] + bricks[i + 1..]
    decreases i
  {
    if i > 0 {
      var tail := bricks[1..];
      assert tail[i - 1] == bricks[i];
      forall j | 0 <= j < i - 1
        ensures !At(tail[j], x, y)
      {
        assert tail[j] == bricks[j + 1];
      }
      RemoveAtFirst(tail, x, y, i - 1);
      assert [bricks[0]] + (tail[..i - 1] + tail[i..]) == bricks[..i] + bricks[i + 1..];
    }
  }

  /** With no brick at (x, y) nothing is removed. */
  lemma {:induction false} RemoveAtAbsent(bricks: seq<Brick>, x: real, y: real)
    requires forall j :: 0 <= j < |bricks| ==> !At(bricks[j], x, y)
    ensures RemoveAt(bricks, x, y) == bricks
    decreases |bricks|
  {
    if |bricks| > 0 {
      var tail := bricks[1..];
      forall j | 0 <= j < |tail|
        ensures !At(tail[j], x, y)
      {
        assert tail[j] == bricks[j + 1];
      }
      RemoveAtAbsent(tail, x, y);
    }
  }

  /** Soft bricks and the revealed bricks still animating, threaded through the revealed-brick loop. */
  datatype Revealed = Revealed(bricks: seq<Brick>, kept: seq<Brick>)

  predicate AllOrdinary(bs: seq<Brick>)
  {
    forall i :: 0 <= i < |bs| ==> bs[i].kind.Ordinary?
  }

  /** No revealed brick is in its breaking animation or out of frames. */
  predicate NoneBreaking(bs: seq<Brick>)
  {
    forall i :: 0 <= i < |bs| ==> bs[i].kind.Ordinary? && !bs[i].kind.breaking && bs[i].kind.frames >= 0
  }

  /**
   * The revealed-brick loop of `Map1.updateLocations`: each revealed brick
   * animates, and one whose frames went negative leaves both lists.
   */
  function AnimateRevealed(bricks: seq<Brick>, revealed: seq<Brick>): (r: Revealed)
    requires AllOrdinary(revealed)
    ensures NoneBreaking(revealed) ==> r == Revealed(bricks, revealed)
    ensures |r.kept| <= |revealed| && |r.bricks| <= |bricks|
    decreases |revealed|
  {
    if |revealed| == 0 then Revealed(bricks, [])
    else
      var prev := AnimateRevealed(bricks, revealed[..|revealed| - 1]);
      var b := Animate(revealed[|revealed| - 1]);
      if b.kind.frames < 0 then Revealed(RemoveAt(prev.bricks, b.body.x, b.body.y), prev.kept)
      else
        assert NoneBreaking(revealed) ==> revealed == revealed[..|revealed| - 1] + [b];
        Revealed(prev.bricks, prev.kept + [b])
  }

  /**
   * `Map1.updateLocations`: Mario, every enemy and the flag take one motion
   * step; the revealed bricks animate.
   */
  function UpdateLocations(l: Level): (r: Level)
    requires Playable(l) && AllOrdinary(l.revealedBricks)
    ensures Playable(r) && AllOrdinary(r.revealedBricks)
    ensures r.mario.value == l.mario.value.(body := UpdateLocation(l.mario.value.body))
    ensures |r.enemies| == |l.enemies|
    ensures forall i :: 0 <= i < |l.enemies| ==> r.enemies[i] == Goomba(UpdateLocation(l.enemies[i].body))
    ensures r.groundBricks == l.groundBricks && r.remainingTime == l.remainingTime
    ensures NoneBreaking(l.revealedBricks) ==> r.bricks == l.bricks && r.revealedBricks == l.revealedBricks
    ensures r.endPoint == Some(UpdateFlag(l.endPoint.value))
    ensures !l.endPoint.value.touched ==> r.endPoint == l.endPoint
    ensures r.endPoint.value.touched == l.endPoint.value.touched
  {
    var m := l.mario.value;
    var rev := AnimateRevealed(l.bricks, l.revealedBricks);
    assert AllOrdinary(rev.kept) by {
      RevealedStaysOrdinary(l.bricks, l.revealedBricks);
    }
    l.(mario := Some(m.(body := UpdateLocation(m.body))),
       enemies := seq(|l.enemies|, i requires 0 <= i < |l.enemies| => Goomba(UpdateLocation(l.enemies[i].body))),
       bricks := rev.bricks,
       revealedBricks := rev.kept,
       endPoint := Some(UpdateFlag(l.endPoint.value)))
  }

  lemma {:induction false} RevealedStaysOrdinary(bricks: seq<Brick>, revealed: seq<Brick>)
    requires AllOrdinary(revealed)
    ensures AllOrdinary(AnimateRevealed(bricks, revealed).kept)
    decreases |revealed|
  {
    if |revealed| > 0 {
      RevealedStaysOrdinary(bricks, revealed[..|revealed| - 1]);
    }
  }

  /** A brick as the map creator makes it never counts down, so it is never removed. */
  lemma NewBricksNeverBreak(x: real, y: real)
    ensures NoneBreaking([NewOrdinaryBrick(x, y)])
    ensures Animate(NewOrdinaryBrick(x, y)) == NewOrdinaryBrick(x, y)
  {
  }

  /** `Map1.updateTime`. */
  function UpdateTime(l: Level, passed: real): (r: Level)
    ensures r.remainingTime == l.remainingTime - passed
    ensures r.mario == l.mario && r.enemies == l.enemies && r.endPoint == l.endPoint
  {
    l.(remainingTime := l.remainingTime - passed)
  }

  /** `Map1.isTimeOver`. */
  predicate IsTimeOver(l: Level)
  {
    l.remainingTime <= 0.0
  }

  /**
   * Taking time off the clock runs it out exactly when at least the time
   * left is taken, and a clock that has run out stays out.
   */
  lemma TimeOverIff(l: Level, passed: real)
    ensures IsTimeOver(UpdateTime(l, passed)) <==> passed >= l.remainingTime
    ensures IsTimeOver(l) && passed >= 0.0 ==> IsTimeOver(UpdateTime(l, passed))
  {
  }

  /** `MapManager.isGameOver`: no lives left or no time left. */
  predicate IsGameOver(l: Level)
    requires l.mario.Some?
  {
    l.mario.value.lives == 0 || IsTimeOver(l)
  }

  /** A level together with the bonus `passMission` returned (-1 for none). */
  datatype Mission = Mission(level: Level, bonus: int)

  /**
   * `MapManager.passMission`: the first time Mario is at or past the flag, the
   * flag latches and the bonus is twice Mario's truncated height; otherwise -1
   * and nothing changes.
   */
  function PassMission(l: Level): (r: Mission)
    requires Playable(l)
    ensures Playable(r.level)
    ensures var reached := l.mario.value.body.x >= l.endPoint.value.body.x;
            if reached && !l.endPoint.value.touched then
              && r.bonus == 2 * Trunc(l.mario.value.body.y)
              && r.level == l.(endPoint := Some(l.endPoint.value.(touched := true)))
            else r == Mission(l, -1)
  {
    var m := l.mario.value;
    var flag := l.endPoint.value;
    if m.body.x >= flag.body.x && !flag.touched then
      Mission(l.(endPoint := Some(flag.(touched := true))), 2 * Trunc(m.body.y))
    else Mission(l, -1)
  }

  /** The flag latches: once `passMission` has paid out, asking again pays nothing. */
  lemma MissionLatches(l: Level)
    requires Playable(l)
    ensures PassMission(l).level.endPoint.value.touched ==> PassMission(PassMission(l).level).bonus == -1
    ensures l.endPoint.value.touched ==> PassMission(l).bonus == -1
    ensures PassMission(l).bonus != -1 ==> !l.endPoint.value.touched && PassMission(l).level.endPoint.value.touched
  {
  }

  /**
   * The bonus shares its type with the "no pass" answer: touching the flag while
   * Mario is above the screen (y <= -1) latches the flag yet yields a negative
   * number, which the game loop reads as "not passed"; so that bonus is lost.
   */
  lemma HighTouchLosesBonus(l: Level)
    requires Playable(l)
    requires l.mario.value.body.x >= l.endPoint.value.body.x && !l.endPoint.value.touched
    requires l.mario.value.body.y <= -1.0
    ensures PassMission(l).bonus <= -2
    ensures PassMission(l).level.endPoint.value.touched
  {
  }

  /** `MapManager.endLevel`: Mario has run 320 past the flag. */
  predicate EndLevel(l: Level)
    requires Playable(l)
  {
    l.mario.value.body.x >= l.endPoint.value.body.x + RunPast
  }

  /** The run-past distance is exact: 319 past the flag is not enough, 320 is. */
  lemma EndLevelBoundary(l: Level)
    requires Playable(l)
    ensures l.mario.value.body.x == l.endPoint.value.body.x + 319.0 ==> !EndLevel(l)
    ensures l.mario.value.body.x == l.endPoint.value.body.x + 320.0 ==> EndLevel(l)
    ensures EndLevel(l) ==> PassMission(l).bonus != -1 || l.endPoint.value.touched
  {
  }
}
