/**
 * `MapManager.checkCollisions`: the fixed-order passes over the bricks
 * (soft bricks, then ground bricks) and the enemies. Every pass is a fold in
 * list order; later contacts overwrite earlier ones.
 */
module Collisions {

  import opened Opt
  import opened Geometry
  import opened Entities
  import opened Sounds
  import opened Cameras
  import opened Levels

  /** Points for landing on an enemy. */
  const StompPoints: int := 100

  /** `r` meets the `side` sub-rectangle of `b`. */
  predicate Hits(r: Rect, b: Body, side: Side)
  {
    Intersects(r, SideBounds(b, side))
  }

  predicate NoHit(r: Rect, bodies: seq<Body>, side: Side)
  {
    forall j {:trigger Hits(r, bodies[j], side)} :: 0 <= j < |bodies| ==> !Hits(r, bodies[j], side)
  }

  /** `bodies[i]` is the last body whose `side` sub-rectangle meets `r`. */
  predicate IsLastHit(r: Rect, bodies: seq<Body>, side: Side, i: int)
  {
    && 0 <= i < |bodies|
    && Hits(r, bodies[i], side)
    && forall j {:trigger Hits(r, bodies[j], side)} :: i < j < |bodies| ==> !Hits(r, bodies[j], side)
  }

  /** How many bodies have their `side` sub-rectangle met by `r`. */
  function HitCount(r: Rect, bodies: seq<Body>, side: Side): nat
    decreases |bodies|
  {
    if |bodies| == 0 then 0
    else HitCount(r, bodies[..|bodies| - 1], side) + (if Hits(r, bodies[|bodies| - 1], side) then 1 else 0)
  }

  /** The indices of the bodies met by `r`. */
  function HitSet(r: Rect, bodies: seq<Body>, side: Side): set<int>
  {
    set i | 0 <= i < |bodies| && Hits(r, bodies[i], side)
  }

  /** Extending the bodies by one adds at most the new index to the set of bodies met. */
  lemma HitSetStep(r: Rect, bodies: seq<Body>, side: Side)
    requires |bodies| > 0
    ensures var n := |bodies| - 1;
            HitSet(r, bodies, side) == HitSet(r, bodies[..n], side) + (if Hits(r, bodies[n], side) then {n} else {})
  {
    var n := |bodies| - 1;
    var prefix := bodies[..n];
    forall t | 0 <= t < n
      ensures Hits(r, prefix[t], side) == Hits(r, bodies[t], side)
    {
      assert prefix[t] == bodies[t];
    }
  }

  /** No body is met exactly when none of the first ones is and the last is not. */
  lemma NoHitStep(r: Rect, bodies: seq<Body>, side: Side)
    requires |bodies| > 0
    ensures var n := |bodies| - 1;
            NoHit(r, bodies, side) <==> NoHit(r, bodies[..n], side) && !Hits(r, bodies[n], side)
  {
    var n := |bodies| - 1;
    var prefix := bodies[..n];
    forall t | 0 <= t < n
      ensures Hits(r, prefix[t], side) == Hits(r, bodies[t], side)
    {
      assert prefix[t] == bodies[t];
    }
  }

  /** Meeting none of the bodies means meeting none of the first k. */
  lemma NoHitPrefix(r: Rect, bodies: seq<Body>, side: Side, k: nat)
    requires k <= |bodies|
    requires NoHit(r, bodies, side)
    ensures NoHit(r, bodies[..k], side)
  {
    forall t | 0 <= t < k
      ensures !Hits(r, bodies[..k][t], side)
    {
      assert bodies[..k][t] == bodies[t];
    }
  }

  /** The running count of the fold is the number of distinct bodies met. */
  lemma {:induction false} HitCountIsCardinality(r: Rect, bodies: seq<Body>, side: Side)
    ensures HitCount(r, bodies, side) == |HitSet(r, bodies, side)|
    decreases |bodies|
  {
    if |bodies| > 0 {
      var n := |bodies| - 1;
      HitCountIsCardinality(r, bodies[..n], side);
      HitSetStep(r, bodies, side);
      assert n !in HitSet(r, bodies[..n], side);
    }
  }

  /** The count is zero exactly when no body is met, and never exceeds the number of bodies. */
  lemma {:induction false} HitCountZero(r: Rect, bodies: seq<Body>, side: Side)
    ensures HitCount(r, bodies, side) <= |bodies|
    ensures HitCount(r, bodies, side) == 0 <==> NoHit(r, bodies, side)
    decreases |bodies|
  {
    if |bodies| > 0 {
      var n := |bodies| - 1;
      var prefix := bodies[..n];
      HitCountZero(r, prefix, side);
      if NoHit(r, prefix, side) && !Hits(r, bodies[n], side) {
        forall t | 0 <= t < |bodies| ensures !Hits(r, bodies[t], side) {
          if t < n {
            assert prefix[t] == bodies[t];
          }
        }
      }
      if !NoHit(r, prefix, side) {
        var t :| 0 <= t < n && Hits(r, prefix[t], side);
        assert bodies[t] == prefix[t];
      }
    }
  }

  function Bodies(bricks: seq<Brick>): (r: seq<Body>)
    ensures |r| == |bricks|
  {
    seq(|bricks|, i requires 0 <= i < |bricks| => bricks[i].body)
  }

  function EnemyBodies(enemies: seq<Enemy>): (r: seq<Body>)
    ensures |r| == |enemies|
  {
    seq(|enemies|, i requires 0 <= i < |enemies| => enemies[i].body)
  }

  // --------------------------------------------------- responses to bricks

  /** What Mario does when he meets a brick in a pass. */
  datatype Response =
    | LandOn                  // bottom pass: stand on the brick
    | BumpUnder               // top pass: head hits the brick from below
    | BlockFrom(toRight: bool) // horizontal pass: stopped flush against it

  /** The fields of Mario's body a response leaves alone. */
  predicate Keeps(m: Body, r: Body, resp: Response)
  {
    && r.width == m.width && r.height == m.height && r.jumping == m.jumping
    && match resp
       case LandOn => r.x == m.x && r.velX == m.velX
       case BumpUnder => r.x == m.x && r.velX == m.velX && r.falling == m.falling
       case BlockFrom(_) => r.y == m.y && r.velY == m.velY && r.falling == m.falling
  }

  function Respond(m: Body, s: Body, resp: Response): (r: Body)
    ensures Keeps(m, r, resp)
  {
    match resp
    case LandOn => m.(y := s.y - m.height as real + 1.0, falling := false, velY := 0.0)
    case BumpUnder => m.(velY := 0.0, y := s.y + s.height as real)
    case BlockFrom(toRight) =>
      m.(velX := 0.0, x := if toRight then s.x - m.width as real else s.x + s.width as real)
  }

  /** Each response overwrites the same fields, reading only Mario's size, so the later one wins. */
  lemma RespondOverwrites(m: Body, a: Body, b: Body, resp: Response)
    ensures Respond(Respond(m, a, resp), b, resp) == Respond(m, b, resp)
  {
  }

  /** Resolving against every brick in turn, with the probe rectangle fixed before the loop. */
  function Resolve(m: Body, probe: Rect, solids: seq<Body>, side: Side, resp: Response): (r: Body)
    ensures Keeps(m, r, resp)
    decreases |solids|
  {
    if |solids| == 0 then m
    else
      var n := |solids| - 1;
      var prev := Resolve(m, probe, solids[..n], side, resp);
      if Hits(probe, solids[n], side) then Respond(prev, solids[n], resp) else prev
  }

  lemma {:induction false} ResolveShape(m: Body, probe: Rect, solids: seq<Body>, side: Side, resp: Response)
    ensures var r := Resolve(m, probe, solids, side, resp);
            r == m || exists j :: 0 <= j < |solids| && r == Respond(m, solids[j], resp)
    decreases |solids|
  {
    if |solids| > 0 {
      var n := |solids| - 1;
      ResolveShape(m, probe, solids[..n], side, resp);
      var prev := Resolve(m, probe, solids[..n], side, resp);
      if Hits(probe, solids[n], side) {
        if prev != m {
          var j :| 0 <= j < n && prev == Respond(m, solids[..n][j], resp);
          RespondOverwrites(m, solids[j], solids[n], resp);
        }
      } else if prev != m {
        var j :| 0 <= j < n && prev == Respond(m, solids[..n][j], resp);
        assert prev == Respond(m, solids[j], resp);
      }
    }
  }

  /** Meeting no brick leaves Mario as he was. */
  lemma {:induction false} ResolveNoHit(m: Body, probe: Rect, solids: seq<Body>, side: Side, resp: Response)
    requires NoHit(probe, solids, side)
    ensures Resolve(m, probe, solids, side, resp) == m
    decreases |solids|
  {
    if |solids| > 0 {
      var n := |solids| - 1;
      assert NoHit(probe, solids[..n], side);
      ResolveNoHit(m, probe, solids[..n], side, resp);
    }
  }

  /** The last brick met decides the outcome of the loop; bricks met earlier are overwritten. */
  lemma {:induction false} ResolveLastWins(m: Body, probe: Rect, solids: seq<Body>, side: Side, resp: Response, i: int)
    requires IsLastHit(probe, solids, side, i)
    ensures Resolve(m, probe, solids, side, resp) == Respond(m, solids[i], resp)
    decreases |solids|
  {
    var n := |solids| - 1;
    var prefix := solids[..n];
    if i == n {
      ResolveShape(m, probe, prefix, side, resp);
      var prev := Resolve(m, probe, prefix, side, resp);
      if prev != m {
        var j :| 0 <= j < n && prev == Respond(m, prefix[j], resp);
        RespondOverwrites(m, prefix[j], solids[n], resp);
      }
    } else {
      assert IsLastHit(probe, prefix, side, i);
      ResolveLastWins(m, probe, prefix, side, resp, i);
    }
  }

  // ------------------------------------------------------------ bottom pass

  datatype Bottom = Bottom(mario: Mario, stomps: nat)

  /**
   * `checkBottomCollisions`: Mario's bottom rectangle, taken once before the
   * loops, is compared with every brick's top (land on the last one met) and
   * every enemy's top (100 points each; the enemy stays); then Mario is kept
   * above the floor.
   */
  function BottomPass(m: Mario, solids: seq<Body>, enemies: seq<Body>): (r: Bottom)
    ensures r.mario.body.y + r.mario.body.height as real <= BottomBorder
    ensures r.mario.points == m.points + StompPoints * r.stomps
    ensures r.mario == m.(body := r.mario.body, points := r.mario.points)
    ensures r.mario.body.x == m.body.x && r.mario.body.velX == m.body.velX
    ensures r.mario.body.width == m.body.width && r.mario.body.height == m.body.height
    ensures r.mario.body.jumping == m.body.jumping
  {
    var feet := SideBounds(m.body, BottomSide);
    var b0 := if !m.body.jumping then m.body.(falling := true) else m.body;
    var b1 := Resolve(b0, feet, solids, TopSide, LandOn);
    var stomps := HitCount(feet, enemies, TopSide);
    var b2 :=
      if b1.y + b1.height as real >= BottomBorder
      then b1.(y := BottomBorder - b1.height as real, falling := false, velY := 0.0)
      else b1;
    Bottom(m.(body := b2, points := m.points + StompPoints * stomps), stomps)
  }

  /** Each enemy whose top Mario's feet meet is worth 100 points, once. */
  lemma BottomPassStomps(m: Mario, solids: seq<Body>, enemies: seq<Body>)
    ensures var r := BottomPass(m, solids, enemies);
            && r.stomps == |HitSet(SideBounds(m.body, BottomSide), enemies, TopSide)|
            && r.stomps <= |enemies|
            && r.mario.points == m.points + StompPoints * |HitSet(SideBounds(m.body, BottomSide), enemies, TopSide)|
  {
    HitCountIsCardinality(SideBounds(m.body, BottomSide), enemies, TopSide);
    HitCountZero(SideBounds(m.body, BottomSide), enemies, TopSide);
  }

  /**
   * Landing: when Mario's feet meet a brick's top, he ends the pass standing
   * (not falling, no vertical speed), on the last brick met or on the floor.
   */
  lemma BottomPassLands(m: Mario, solids: seq<Body>, enemies: seq<Body>, i: int)
    requires IsLastHit(SideBounds(m.body, BottomSide), solids, TopSide, i)
    ensures var r := BottomPass(m, solids, enemies).mario.body;
            && !r.falling && r.velY == 0.0
            && (r.y == solids[i].y - m.body.height as real + 1.0 || r.y == BottomBorder - m.body.height as real)
  {
    var b0 := if !m.body.jumping then m.body.(falling := true) else m.body;
    ResolveLastWins(b0, SideBounds(m.body, BottomSide), solids, TopSide, LandOn, i);
  }

  /** With nothing underfoot and above the floor, Mario only starts falling (unless mid-jump). */
  lemma BottomPassFalls(m: Mario, solids: seq<Body>, enemies: seq<Body>)
    requires NoHit(SideBounds(m.body, BottomSide), solids, TopSide)
    requires m.body.y + m.body.height as real < BottomBorder
    ensures BottomPass(m, solids, enemies).mario.body == m.body.(falling := m.body.falling || !m.body.jumping)
  {
    var b0 := if !m.body.jumping then m.body.(falling := true) else m.body;
    ResolveNoHit(b0, SideBounds(m.body, BottomSide), solids, TopSide, LandOn);
  }

  /** A Mario falling onto a 48x48 brick at (0, 348) from y = 301 stands at 348 - 48 + 1. */
  lemma LandingScenario()
    ensures var m := NewMario(0.0, 301.0);
            var r := BottomPass(m, [NewGroundBrick(0.0, 348.0).body], []).mario.body;
            r.y == 301.0 && !r.falling && r.velY == 0.0
  {
    var m := NewMario(0.0, 301.0);
    var solids := [NewGroundBrick(0.0, 348.0).body];
    assert SideBounds(m.body, BottomSide) == Rect(8, 325, 32, 24);
    assert SideBounds(solids[0], TopSide) == Rect(8, 348, 32, 24);
    assert IsLastHit(SideBounds(m.body, BottomSide), solids, TopSide, 0);
    BottomPassLands(m, solids, [], 0);
  }

  // --------------------------------------------------------------- top pass

  /**
   * `checkTopCollisions`: Mario's top rectangle against every brick's bottom;
   * the last brick met stops the rise and puts Mario just beneath it.
   */
  function TopPass(m: Mario, solids: seq<Body>): (r: Mario)
    ensures r == m.(body := r.body)
    ensures r.body.x == m.body.x && r.body.velX == m.body.velX
    ensures r.body.falling == m.body.falling && r.body.jumping == m.body.jumping
    ensures r.body.width == m.body.width && r.body.height == m.body.height
  {
    m.(body := Resolve(m.body, SideBounds(m.body, TopSide), solids, BottomSide, BumpUnder))
  }

  /** A head bump: the last brick whose bottom Mario's head meets stops him just beneath it. */
  lemma TopPassBumps(m: Mario, solids: seq<Body>, i: int)
    requires IsLastHit(SideBounds(m.body, TopSide), solids, BottomSide, i)
    ensures TopPass(m, solids).body == m.body.(velY := 0.0, y := solids[i].y + solids[i].height as real)
  {
    ResolveLastWins(m.body, SideBounds(m.body, TopSide), solids, BottomSide, BumpUnder, i);
  }

  /** Without a brick overhead the top pass changes nothing. */
  lemma TopPassClear(m: Mario, solids: seq<Body>)
    requires NoHit(SideBounds(m.body, TopSide), solids, BottomSide)
    ensures TopPass(m, solids) == m
  {
    ResolveNoHit(m.body, SideBounds(m.body, TopSide), solids, BottomSide, BumpUnder);
  }

  // -------------------------------------------------------- horizontal pass

  /** The side Mario leads with, by facing. */
  function Leading(toRight: bool): Side
  {
    if toRight then RightSide else LeftSide
  }

  /** Mario, the camera and the death flag threaded through the enemy loop. */
  datatype Contact = Contact(mario: Mario, camera: Camera, dies: bool, sounds: seq<Sound>)

  /** Mario after the first enemy contact of a super or fire Mario. */
  function Shrunk(m: Mario): Mario
  {
    OnTouchEnemy(m).mario
  }

  /**
   * The enemy loop of `checkMarioHorizontalCollision`: each enemy met calls
   * `onTouchEnemy` and OVERWRITES the death flag. A small Mario loses a life
   * per enemy met; a super or fire Mario first shrinks (and shakes the
   * camera), then loses a life per further enemy. The enemies stay.
   */
  function Touches(m: Mario, cam: Camera, lead: Rect, enemies: seq<Body>, side: Side): (r: Contact)
    ensures var n := HitCount(lead, enemies, side);
            IsSmall(m.form) ==>
              && r.mario == m.(lives := m.lives - n)
              && r.camera == cam
              && r.dies == (n > 0)
              && r.sounds == Repeat(MarioDiesSound, n)
    ensures var n := HitCount(lead, enemies, side);
            !IsSmall(m.form) && n == 0 ==> r == Contact(m, cam, false, [])
    ensures var n := HitCount(lead, enemies, side);
            !IsSmall(m.form) && n > 0 ==>
              && r.mario == Shrunk(m).(lives := m.lives - (n - 1))
              && r.camera == Shake(cam)
              && r.dies == (n > 1)
              && r.sounds == Repeat(MarioDiesSound, n - 1)
    decreases |enemies|
  {
    if |enemies| == 0 then Contact(m, cam, false, [])
    else
      var k := |enemies| - 1;
      var prev := Touches(m, cam, lead, enemies[..k], side);
      if Hits(lead, enemies[k], side) then
        var t := OnTouchEnemy(prev.mario);
        Contact(
          t.mario,
          if t.dies then prev.camera else Shake(prev.camera),
          t.dies,
          prev.sounds + (if t.dies then [MarioDiesSound] else []))
      else prev
  }

  /** How many lives a contact count costs Mario in one horizontal pass. */
  function LivesLost(form: MarioForm, touches: nat): nat
  {
    if IsSmall(form) then touches else if touches == 0 then 0 else touches - 1
  }

  datatype Horizontal = Horizontal(mario: Mario, camera: Camera, dies: bool, sounds: seq<Sound>)

  /**
   * `checkMarioHorizontalCollision`: Mario's leading rectangle (by facing,
   * taken once) against every brick's and enemy's facing side; bricks stop
   * him flush, enemies hurt him; finally a Mario walking left is kept from
   * passing the camera's left edge. `dies` asks for the level reset. Lives
   * are counted over the enemies whose facing side Mario's leading rectangle
   * meets: a small Mario loses one per contact; a super or fire Mario shrinks
   * on the first and loses one per further contact.
   */
  function HorizontalPass(m: Mario, solids: seq<Body>, enemies: seq<Body>, cam: Camera): (r: Horizontal)
    ensures var n := HitCount(SideBounds(m.body, Leading(m.toRight)), enemies, Opposite(Leading(m.toRight)));
            && r.mario.lives == m.lives - LivesLost(m.form, n)
            && (r.dies <==> LivesLost(m.form, n) > 0)
            && r.sounds == Repeat(MarioDiesSound, LivesLost(m.form, n))
            && (n > 0 ==> IsSmall(r.mario.form))
            && (n == 0 ==> r.mario.form == m.form && r.camera == cam)
            && (n > 0 && !IsSmall(m.form) ==> r.camera == Shake(cam))
    ensures r.mario.body.velX < 0.0 ==> r.mario.body.x > Trunc(r.camera.x) as real
    ensures r.mario.body.y == m.body.y && r.mario.body.velY == m.body.velY
    ensures r.mario.body.falling == m.body.falling && r.mario.body.jumping == m.body.jumping
    ensures r.mario.points == m.points && r.mario.toRight == m.toRight
    ensures r.camera.x == cam.x && r.camera.y == cam.y
  {
    var leadSide := Leading(m.toRight);
    var lead := SideBounds(m.body, leadSide);
    var b := Resolve(m.body, lead, solids, Opposite(leadSide), BlockFrom(m.toRight));
    var t := Touches(m.(body := b), cam, lead, enemies, Opposite(leadSide));
    var edge := Trunc(t.camera.x) as real;
    var m2 := t.mario;
    var m3 :=
      if m2.body.x <= edge && m2.body.velX < 0.0 then m2.(body := m2.body.(velX := 0.0, x := edge))
      else m2;
    Horizontal(m3, t.camera, t.dies, t.sounds)
  }

  /** With no brick or enemy ahead and clear of the camera's edge, the pass changes nothing. */
  lemma HorizontalClear(m: Mario, solids: seq<Body>, enemies: seq<Body>, cam: Camera)
    requires NoHit(SideBounds(m.body, Leading(m.toRight)), solids, Opposite(Leading(m.toRight)))
    requires NoHit(SideBounds(m.body, Leading(m.toRight)), enemies, Opposite(Leading(m.toRight)))
    requires !(m.body.x <= Trunc(cam.x) as real && m.body.velX < 0.0)
    ensures HorizontalPass(m, solids, enemies, cam) == Horizontal(m, cam, false, [])
  {
    var lead := SideBounds(m.body, Leading(m.toRight));
    ResolveNoHit(m.body, lead, solids, Opposite(Leading(m.toRight)), BlockFrom(m.toRight));
    HitCountZero(lead, enemies, Opposite(Leading(m.toRight)));
  }

  /** Walking into the last brick ahead stops Mario flush against it. */
  lemma HorizontalBlocked(m: Mario, solids: seq<Body>, enemies: seq<Body>, cam: Camera, i: int)
    requires IsLastHit(SideBounds(m.body, Leading(m.toRight)), solids, Opposite(Leading(m.toRight)), i)
    ensures var r := HorizontalPass(m, solids, enemies, cam).mario.body;
            && r.velX == 0.0
            && r.x == (if m.toRight then solids[i].x - m.body.width as real else solids[i].x + solids[i].width as real)
  {
    var lead := SideBounds(m.body, Leading(m.toRight));
    ResolveLastWins(m.body, lead, solids, Opposite(Leading(m.toRight)), BlockFrom(m.toRight), i);
  }

  // -------------------------------------------------------------- enemy pass

  /** The side an enemy leads with, by the sign of its speed. */
  function EnemyLeading(b: Body): Side
  {
    if b.velX > 0.0 then RightSide else LeftSide
  }

  /** An enemy and whether it found a brick to stand on, threaded through the brick loop. */
  datatype Scan = Scan(body: Body, stands: bool)

  /** One brick of the inner loop of `checkEnemyCollisions`. */
  function ScanStep(prev: Scan, s: Body): (r: Scan)
    ensures r.body.x == prev.body.x && r.body.width == prev.body.width && r.body.height == prev.body.height
    ensures r.body.jumping == prev.body.jumping
    ensures r.body.velX == prev.body.velX || r.body.velX == -prev.body.velX
    ensures r.stands == (prev.stands || Hits(SideBounds(prev.body, BottomSide), s, TopSide))
    ensures Hits(SideBounds(prev.body, BottomSide), s, TopSide) ==> !r.body.falling && r.body.velY == 0.0
    ensures !Hits(SideBounds(prev.body, BottomSide), s, TopSide) ==> r.body == prev.body.(velX := r.body.velX)
  {
    var b := prev.body;
    var lead := EnemyLeading(b);
    var turned := if Hits(SideBounds(b, lead), s, Opposite(lead)) then b.(velX := -b.velX) else b;
    if Hits(SideBounds(b, BottomSide), s, TopSide)
    then Scan(turned.(falling := false, velY := 0.0, y := s.y - b.height as real), true)
    else Scan(turned, prev.stands)
  }

  /**
   * The brick loop for one enemy: it turns round on meeting a brick with its
   * leading side (recomputed per brick) and stands on a brick whose top its
   * bottom meets. It stands exactly when some brick's top meets its bottom
   * rectangle as it was before the loop; until then its height is unchanged.
   */
  function EnemyScan(e: Body, solids: seq<Body>): (r: Scan)
    ensures r.body.x == e.x && r.body.width == e.width && r.body.height == e.height
    ensures r.body.jumping == e.jumping
    ensures r.body.velX == e.velX || r.body.velX == -e.velX
    ensures !r.stands ==> r.body == e.(velX := r.body.velX)
    ensures r.stands ==> !r.body.falling && r.body.velY == 0.0
    decreases |solids|
  {
    if |solids| == 0 then Scan(e, false)
    else
      var n := |solids| - 1;
      ScanStep(EnemyScan(e, solids[..n]), solids[n])
  }

  /** Turning round changes only the speed, so every side rectangle stays where it was. */
  lemma TurnKeepsBounds(e: Body, v: real, side: Side)
    ensures SideBounds(e.(velX := v), side) == SideBounds(e, side)
  {
  }

  /**
   * The enemy stands exactly when some brick's top meets its bottom rectangle
   * as it was before the loop: until the first landing its position is
   * unchanged, and once it stands it keeps standing.
   */
  lemma {:induction false} EnemyStandsIff(e: Body, solids: seq<Body>)
    ensures EnemyScan(e, solids).stands <==> !NoHit(SideBounds(e, BottomSide), solids, TopSide)
    decreases |solids|
  {
    if |solids| > 0 {
      var n := |solids| - 1;
      var prefix := solids[..n];
      EnemyStandsIff(e, prefix);
      NoHitStep(SideBounds(e, BottomSide), solids, TopSide);
      var prev := EnemyScan(e, prefix);
      if !prev.stands {
        TurnKeepsBounds(e, prev.body.velX, BottomSide);
      }
    }
  }

  /**
   * `checkEnemyCollisions` for one enemy: the brick loop, then the floor clamp,
   * then an enemy standing on nothing and above the floor is marked falling.
   */
  function EnemyStep(e: Enemy, solids: seq<Body>): (r: Enemy)
    ensures r.body.y + r.body.height as real <= BottomBorder
    ensures r.body.x == e.body.x && r.body.width == e.body.width && r.body.height == e.body.height
    ensures r.body.velX == e.body.velX || r.body.velX == -e.body.velX
  {
    var sc := EnemyScan(e.body, solids);
    var b := sc.body;
    var clamped :=
      if b.y + b.height as real > BottomBorder
      then b.(falling := false, velY := 0.0, y := BottomBorder - b.height as real)
      else b;
    Goomba(if !sc.stands && clamped.y < BottomBorder then clamped.(falling := true) else clamped)
  }

  /** An enemy whose bottom meets some brick's top ends the pass at rest vertically. */
  lemma EnemyStepLands(e: Enemy, solids: seq<Body>, j: int)
    requires 0 <= j < |solids| && Hits(SideBounds(e.body, BottomSide), solids[j], TopSide)
    ensures !EnemyStep(e, solids).body.falling && EnemyStep(e, solids).body.velY == 0.0
  {
    EnemyStandsIff(e.body, solids);
  }

  /**
   * An enemy above the floor whose bottom meets no brick keeps its height and
   * is marked falling (unless it is exactly on the floor line and was not).
   */
  lemma EnemyStepFalls(e: Enemy, solids: seq<Body>)
    requires NoHit(SideBounds(e.body, BottomSide), solids, TopSide)
    requires e.body.y + e.body.height as real <= BottomBorder
    ensures var r := EnemyStep(e, solids).body;
            r.y == e.body.y && (r.falling <==> e.body.y < BottomBorder || e.body.falling)
  {
    EnemyStandsIff(e.body, solids);
  }

  /** Every enemy is checked on its own against the bricks; none is added or removed. */
  function EnemyPass(enemies: seq<Enemy>, solids: seq<Body>): (r: seq<Enemy>)
    ensures |r| == |enemies|
    ensures forall i :: 0 <= i < |r| ==> r[i] == EnemyStep(enemies[i], solids)
    ensures forall i :: 0 <= i < |r| ==> r[i].body.y + r[i].body.height as real <= BottomBorder
  {
    seq(|enemies|, i requires 0 <= i < |enemies| => EnemyStep(enemies[i], solids))
  }


  /** `velX` after the brick loop's first k bricks, when the enemy lands on none and turns at brick i only. */
  lemma {:induction false} TurnPrefix(e: Body, solids: seq<Body>, i: int, k: nat)
    requires k <= |solids|
    requires NoHit(SideBounds(e, BottomSide), solids, TopSide)
    requires 0 <= i < |solids|
    requires Hits(SideBounds(e, EnemyLeading(e)), solids[i], Opposite(EnemyLeading(e)))
    requires forall j {:trigger Hits(SideBounds(e, EnemyLeading(e)), solids[j], Opposite(EnemyLeading(e)))} ::
               0 <= j < |solids| && j != i ==> !Hits(SideBounds(e, EnemyLeading(e)), solids[j], Opposite(EnemyLeading(e)))
    requires NoHit(SideBounds(e, Opposite(EnemyLeading(e))), solids, EnemyLeading(e))
    ensures EnemyScan(e, solids[..k]).body.velX == (if k > i then -e.velX else e.velX)
    decreases k
  {
    if k > 0 {
      var j := k - 1;
      TurnPrefix(e, solids, i, j);
      var prefix := solids[..j];
      assert solids[..k][..j] == prefix;
      NoHitPrefix(SideBounds(e, BottomSide), solids, TopSide, j);
      EnemyStandsIff(e, prefix);
      var prev := EnemyScan(e, prefix);
      var v := if j > i then -e.velX else e.velX;
      var lead := EnemyLeading(prev.body);
      TurnKeepsBounds(e, v, lead);
      TurnKeepsBounds(e, v, BottomSide);
      assert EnemyScan(e, solids[..k]) == ScanStep(prev, solids[j]);
      if j > i && e.velX != 0.0 {
        assert lead == Opposite(EnemyLeading(e));
      }
    }
  }

  /**
   * An enemy that lands on nothing, meets exactly one brick with its leading
   * side and none with its trailing side reverses its horizontal speed.
   */
  lemma EnemyTurnsAtWall(e: Body, solids: seq<Body>, i: int)
    requires NoHit(SideBounds(e, BottomSide), solids, TopSide)
    requires 0 <= i < |solids|
    requires Hits(SideBounds(e, EnemyLeading(e)), solids[i], Opposite(EnemyLeading(e)))
    requires forall j {:trigger Hits(SideBounds(e, EnemyLeading(e)), solids[j], Opposite(EnemyLeading(e)))} ::
               0 <= j < |solids| && j != i ==> !Hits(SideBounds(e, EnemyLeading(e)), solids[j], Opposite(EnemyLeading(e)))
    requires NoHit(SideBounds(e, Opposite(EnemyLeading(e))), solids, EnemyLeading(e))
    ensures EnemyStep(Goomba(e), solids).body.velX == -e.velX
  {
    TurnPrefix(e, solids, i, |solids|);
    assert solids[..|solids|] == solids;
    var sc := EnemyScan(e, solids);
    assert EnemyStep(Goomba(e), solids).body.velX == sc.body.velX;
  }

  /** A Goomba walking right at 3 into a ground brick turns to -3 in the same pass. */
  lemma GoombaTurnsAtBrick()
    ensures EnemyStep(NewGoomba(10.0, 528.0), [NewGroundBrick(48.0, 528.0).body]).body.velX == -3.0
  {
    var e := NewGoomba(10.0, 528.0).body;
    var s := [NewGroundBrick(48.0, 528.0).body];
    assert SideBounds(e, RightSide) == Rect(46, 540, 12, 24);
    assert SideBounds(s[0], LeftSide) == Rect(48, 540, 12, 24);
    EnemyTurnsAtWall(e, s, 0);
  }

  // ----------------------------------------------------------- whole resolver

  /** The resolver's result: the level, the camera, the sounds played and whether the map was reset. */
  datatype Collided = Collided(level: Level, camera: Camera, sounds: seq<Sound>, reset: bool)

  /**
   * `checkCollisions`: bottom, top and horizontal passes on Mario, then the
   * enemy pass. A death in the horizontal pass resets the map before the enemy
   * pass: Mario goes back to x = 50, the camera is new, and the level becomes
   * `reload` (what re-reading the same map image yields) with this Mario in it.
   * No pass removes anything.
   */
  function CheckCollisions(l: Level, cam: Camera, reload: Level): (r: Collided)
    requires Playable(l)
    ensures r.level.mario.Some?
    ensures r.reset ==>
              && r.camera == NewCamera
              && r.level.endPoint == reload.endPoint
              && r.level.remainingTime == reload.remainingTime
              && r.level.bricks == reload.bricks && r.level.groundBricks == reload.groundBricks
              && r.level.revealedBricks == reload.revealedBricks
              && |r.level.enemies| == |reload.enemies|
              && r.level.mario.value.body.x == 50.0
              && r.level.mario.value.body.velX == 0.0
              && r.level.mario.value.body.velY == 0.0
              && r.level.mario.value.body.falling && !r.level.mario.value.body.jumping
    ensures !r.reset ==>
              && r.level.endPoint == l.endPoint
              && r.level.remainingTime == l.remainingTime
              && r.level.bricks == l.bricks && r.level.groundBricks == l.groundBricks
              && r.level.revealedBricks == l.revealedBricks
              && |r.level.enemies| == |l.enemies|
              && (forall i :: 0 <= i < |l.enemies| ==> r.level.enemies[i].body.x == l.enemies[i].body.x)
    ensures forall i :: 0 <= i < |r.level.enemies| ==>
              r.level.enemies[i].body.y + r.level.enemies[i].body.height as real <= BottomBorder
    ensures r.level.mario.value.points >= l.mario.value.points
    ensures r.level.mario.value.lives <= l.mario.value.lives
    ensures r.level.mario.value.lives >= l.mario.value.lives - |l.enemies|
  {
    var m := l.mario.value;
    var solids := Bodies(AllBricks(l));
    var foes := EnemyBodies(l.enemies);
    var bottom := BottomPass(m, solids, foes);
    var top := TopPass(bottom.mario, solids);
    var side := HorizontalPass(top, solids, foes, cam);
    var lead := SideBounds(top.body, Leading(top.toRight));
    HitCountZero(lead, foes, Opposite(Leading(top.toRight)));
    var stomps := Repeat(StompSound, bottom.stomps);
    var l1 :=
      if side.dies then reload.(mario := Some(ResetLocation(side.mario)))
      else l.(mario := Some(side.mario));
    var cam1 := if side.dies then NewCamera else side.camera;
    var sounds := stomps + side.sounds + (if side.dies then [BackgroundRestart] else []);
    Collided(l1.(enemies := EnemyPass(l1.enemies, Bodies(AllBricks(l1)))), cam1, sounds, side.dies)
  }
}
