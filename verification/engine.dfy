/**
 * `GameEngine`: the mode machine that turns input into menu moves, map
 * loading and Mario's actions, and the per-tick game loop that moves,
 * resolves collisions, follows with the camera and decides game over and
 * mission passed.
 */
module GameEngine {

  import opened Opt
  import opened Geometry
  import opened Modes
  import opened Menus
  import opened Input
  import opened Sounds
  import opened Cameras
  import opened Entities
  import opened Levels
  import opened Collisions
  import opened Decoder

  /** The level in play and the level its map image decodes to, which a death reloads. */
  datatype Loaded = Loaded(level: Level, initial: Level)

  /** The engine's state; `sounds` records every audio request in order. */
  datatype Engine = Engine(
    status: GameStatus,
    selection: StartScreenSelection,
    selectedMap: int,
    camera: Camera,
    loaded: Option<Loaded>,
    sounds: seq<Sound>)

  /** `GameEngine.init`: the map list is shown first, with no map loaded. */
  const Initial := Engine(MapSelection, StartGame, 0, NewCamera, None, [])

  /** The modes in which a map is in play or just finished. */
  predicate InLevel(s: GameStatus)
  {
    s == Running || s == Paused || s == GameOver || s == MissionPassed
  }

  /**
   * What the engine keeps true between events: a map is loaded whenever one
   * is in play, the map cursor points at a listed map, and the revealed-brick
   * list holds only ordinary bricks.
   */
  predicate Valid(e: Engine)
  {
    && (InLevel(e.status) ==> e.loaded.Some?)
    && 0 <= e.selectedMap < |MapNames|
    && (e.loaded.Some? ==> AllOrdinary(e.loaded.value.level.revealedBricks)
                           && e.loaded.value.initial.revealedBricks == [])
  }

  lemma InitialValid()
    ensures Valid(Initial) && Initial.status == MapSelection && Initial.loaded.None?
  {
  }

  // ------------------------------------------------------------ map loading

  /**
   * The map files `ImageLoader.loadImage` reads: a name that is absent has
   * no resource, and a name mapped to `None` names a file `ImageIO` cannot read.
   */
  type Images = map<string, Option<Image>>

  /**
   * `GameEngine.createMap`: a map that loads starts running with the
   * background restarted; one that cannot be read clears the map and goes
   * back to the start screen. A missing resource makes `ImageIO.read` throw,
   * which abandons the event before anything changes. The camera is left as
   * it was.
   */
  function CreateLevel(e: Engine, images: Images, name: string): (r: Engine)
    ensures name in images && images[name].Some? ==>
              && r.status == Running
              && r.loaded == Some(Loaded(CreateMap(images[name], TimeLimit).value,
                                         CreateMap(images[name], TimeLimit).value))
              && r.sounds == e.sounds + [BackgroundRestart]
    ensures name in images && images[name].None? ==> r == e.(status := StartScreen, loaded := None)
    ensures name !in images ==> r == e
    ensures r.camera == e.camera && r.selectedMap == e.selectedMap && r.selection == e.selection
  {
    if name !in images then e
    else
      match CreateMap(images[name], TimeLimit)
      case None => e.(status := StartScreen, loaded := None)
      case Some(l) => e.(status := Running, loaded := Some(Loaded(l, l)), sounds := e.sounds + [BackgroundRestart])
  }

  /** `selectMapViaKeyboard`: load the map under the cursor, if the cursor is on one. */
  function SelectMapViaKeyboard(e: Engine, images: Images): (r: Engine)
    ensures 0 <= e.selectedMap < |MapNames| ==> r == CreateLevel(e, images, MapNames[e.selectedMap])
    ensures !(0 <= e.selectedMap < |MapNames|) ==> r == e
  {
    match SelectMap(MapNames, e.selectedMap)
    case None => e
    case Some(name) => CreateLevel(e, images, name)
  }

  // ------------------------------------------------------------------ modes

  /** `pauseGame`: running and paused swap, pausing or resuming the music; other modes ignore it. */
  function PauseGame(e: Engine): (r: Engine)
    ensures e.status == Running ==> r == e.(status := Paused, sounds := e.sounds + [BackgroundPause])
    ensures e.status == Paused ==> r == e.(status := Running, sounds := e.sounds + [BackgroundResume])
    ensures e.status != Running && e.status != Paused ==> r == e
  {
    if e.status == Running then e.(status := Paused, sounds := e.sounds + [BackgroundPause])
    else if e.status == Paused then e.(status := Running, sounds := e.sounds + [BackgroundResume])
    else e
  }

  /** `reset`: a new camera, the music restarted, back to the start screen; the map stays loaded. */
  function Reset(e: Engine): (r: Engine)
    ensures r.status == StartScreen && r.camera == NewCamera
    ensures r.loaded == e.loaded && r.sounds == e.sounds + [BackgroundRestart]
  {
    e.(camera := NewCamera, sounds := e.sounds + [BackgroundRestart], status := StartScreen)
  }

  /** `startGame`: from anywhere but game over, go to the map list. */
  function StartGameAction(e: Engine): (r: Engine)
    ensures e.status != GameOver ==> r == e.(status := MapSelection)
    ensures e.status == GameOver ==> r == e
  {
    if e.status != GameOver then e.(status := MapSelection) else e
  }

  /** Mario's reaction to an action while running; a level without Mario ignores it. */
  function Steer(e: Engine, input: ButtonAction): (r: Engine)
    requires e.loaded.Some?
    ensures r.status == e.status && r.camera == e.camera && r.selectedMap == e.selectedMap
    ensures r.loaded.Some? && r.loaded.value.initial == e.loaded.value.initial
    ensures e.loaded.value.level.mario.None? ==> r == e
    ensures e.loaded.value.level.mario.Some? ==>
              var m := e.loaded.value.level.mario.value;
              var after := r.loaded.value.level.mario;
              && r.loaded.value.level == e.loaded.value.level.(mario := after)
              && (input == Jump ==> after == Some(Entities.Jump(m)))
              && (input == MRight ==> after == Some(Move(m, true, e.camera.x)))
              && (input == MLeft ==> after == Some(Move(m, false, e.camera.x)))
              && (input == ActionCompleted ==> after == Some(m.(body := m.body.(velX := 0.0))))
              && (input !in {Jump, MRight, MLeft, ActionCompleted} ==> r == e)
              && r.sounds == e.sounds + (if input == Jump && CanJump(m) then [JumpSound] else [])
  {
    var ld := e.loaded.value;
    match ld.level.mario
    case None => e
    case Some(m) =>
      var m' :=
        match input
        case Jump => Entities.Jump(m)
        case MRight => Move(m, true, e.camera.x)
        case MLeft => Move(m, false, e.camera.x)
        case ActionCompleted => m.(body := m.body.(velX := 0.0))
        case _ => m;
      var sounds := e.sounds + (if input == Jump && CanJump(m) then [JumpSound] else []);
      assert input !in {Jump, MRight, MLeft, ActionCompleted} ==> m' == m && sounds == e.sounds;
      e.(loaded := Some(ld.(level := ld.level.(mario := Some(m')))), sounds := sounds)
  }

  /**
   * `receiveInput`: the branch for the current mode, then GO_TO_START_SCREEN
   * always ends on the start screen.
   */
  function ReceiveInput(e: Engine, input: ButtonAction, images: Images): (r: Engine)
    requires Valid(e)
    ensures Valid(r)
    ensures input == GoToStartScreen ==> r.status == StartScreen
  {
    var e1 :=
      if e.status == StartScreen then
        if input == Select && e.selection == StartGame then StartGameAction(e)
        else if input == Select && e.selection == ViewAbout then e.(status := AboutScreen)
        else if input == Select && e.selection == ViewHelp then e.(status := HelpScreen)
        else if input == GoUp then e.(selection := Menus.Select(e.selection, true))
        else if input == GoDown then e.(selection := Menus.Select(e.selection, false))
        else e
      else if e.status == MapSelection then
        if input == Select then SelectMapViaKeyboard(e, images)
        else if input == GoUp then e.(selectedMap := ChangeSelectedMap(|MapNames|, e.selectedMap, true))
        else if input == GoDown then e.(selectedMap := ChangeSelectedMap(|MapNames|, e.selectedMap, false))
        else e
      else if e.status == Running then
        if input == PauseResume then PauseGame(e) else Steer(e, input)
      else if e.status == Paused then
        if input == PauseResume then PauseGame(e) else e
      else if (e.status == GameOver || e.status == MissionPassed) && input == GoToStartScreen then Reset(e)
      else e;
    if input == GoToStartScreen then e1.(status := StartScreen) else e1
  }

  /** `InputManager.keyPressed`: the key becomes an action for the current mode; no action is not sent. */
  function PressKey(e: Engine, key: Key, images: Images): (r: Engine)
    requires Valid(e)
    ensures Valid(r)
    ensures key == OtherKey ==> r == e
  {
    var a := KeyPressed(key, e.status);
    if a == NoAction then e else ReceiveInput(e, a, images)
  }

  /** `InputManager.keyReleased`. */
  function ReleaseKey(e: Engine, key: Key): (r: Engine)
    requires Valid(e)
    ensures Valid(r)
    ensures key != RightKey && key != LeftKey ==> r == e
  {
    var a := KeyReleased(key);
    if a == NoAction then e else ReceiveInput(e, a, map[])
  }

  // ------------------------------------------------------------ game loop

  /** A map in play that the loop can run: Mario and the flag exist, in the level and in its reload. */
  predicate Runnable(e: Engine)
  {
    && e.status == Running
    && e.loaded.Some?
    && Playable(e.loaded.value.level)
    && Playable(e.loaded.value.initial)
    && AllOrdinary(e.loaded.value.level.revealedBricks)
  }

  /** The first half of `gameLoop`: every object moves, then collisions are resolved. */
  function Resolved(e: Engine): (c: Collided)
    requires Runnable(e)
    ensures Playable(c.level)
  {
    CheckCollisions(UpdateLocations(e.loaded.value.level), e.camera, e.loaded.value.initial)
  }

  /**
   * `gameLoop`: move everything, resolve collisions, follow Mario with the
   * camera, then game over when lives or time run out; a first touch of the
   * flag pays its bonus, otherwise running far enough past it passes the
   * mission (which overrides game over in the same tick).
   *
   * The outcome, read off the level after collisions: the flag pays when
   * Mario has reached it untouched and twice his truncated height is not
   * negative; the mission is passed when it does not pay and Mario is 320
   * past the flag; otherwise the game is over exactly when no lives (exactly
   * zero) or no time is left. Only a paid bonus changes Mario.
   */
  function GameLoop(e: Engine): (r: Engine)
    requires Runnable(e)
    ensures r.loaded.Some? && r.loaded.value.initial == e.loaded.value.initial
    ensures Playable(r.loaded.value.level)
    ensures r.selectedMap == e.selectedMap && r.selection == e.selection
    ensures var c := Resolved(e).level;
            var m := c.mario.value;
            var f := c.endPoint.value;
            var paid := m.body.x >= f.body.x && !f.touched && 2 * Trunc(m.body.y) > -1;
            var passed := !paid && m.body.x >= f.body.x + 320.0;
            && r.status == (if passed then MissionPassed
                            else if m.lives == 0 || c.remainingTime <= 0.0 then GameOver
                            else Running)
            && r.loaded.value.level.mario == Some(m.(points := m.points + (if paid then 2 * Trunc(m.body.y) else 0)))
    ensures var c := Resolved(e);
            var m := c.level.mario.value;
            var f := c.level.endPoint.value;
            && r.camera == UpdateCamera(c.camera, m.body.x, m.body.velX)
            && r.sounds == e.sounds + c.sounds
            && r.loaded.value.level.endPoint == Some(f.(touched := f.touched || m.body.x >= f.body.x))
            && r.loaded.value.level.enemies == c.level.enemies
            && r.loaded.value.level.bricks == c.level.bricks
            && r.loaded.value.level.groundBricks == c.level.groundBricks
            && r.loaded.value.level.revealedBricks == c.level.revealedBricks
            && r.loaded.value.level.remainingTime == c.level.remainingTime
  {
    var ld := e.loaded.value;
    var c := Resolved(e);
    var m := c.level.mario.value;
    var cam := UpdateCamera(c.camera, m.body.x, m.body.velX);
    var status := if IsGameOver(c.level) then GameOver else Running;
    var mission := PassMission(c.level);
    var level :=
      if mission.bonus > -1
      then mission.level.(mario := Some(m.(points := m.points + mission.bonus)))
      else mission.level;
    var status' := if mission.bonus <= -1 && EndLevel(mission.level) then MissionPassed else status;
    e.(status := status', camera := cam, loaded := Some(ld.(level := level)), sounds := e.sounds + c.sounds)
  }

  /** One tick of the run loop: the game loop runs only while a runnable map is in play. */
  function Tick(e: Engine): (r: Engine)
    requires Valid(e)
    ensures Valid(r)
    ensures !Runnable(e) ==> r == e
  {
    if Runnable(e) then
      var r := GameLoop(e);
      assert AllOrdinary(r.loaded.value.level.revealedBricks) by {
        GameLoopKeepsRevealed(e);
      }
      r
    else e
  }

  /** `MapManager.updateTime` once a second, which the run loop only reaches while running. */
  function SecondElapsed(e: Engine): (r: Engine)
    requires Valid(e)
    ensures Valid(r)
    ensures e.status == Running ==>
              r == e.(loaded := Some(e.loaded.value.(level := UpdateTime(e.loaded.value.level, 1.0))))
    ensures e.status != Running ==> r == e
  {
    if e.status == Running then e.(loaded := Some(e.loaded.value.(level := UpdateTime(e.loaded.value.level, 1.0))))
    else e
  }

  /** `n` seconds of the run loop's timer with no tick in between. */
  function Elapse(e: Engine, n: nat): (r: Engine)
    requires Valid(e)
    ensures Valid(r)
    decreases n
  {
    if n == 0 then e else SecondElapsed(Elapse(e, n - 1))
  }

  // ---------------------------------------------------------------- lemmas

  /** The loop keeps the revealed-brick list made of ordinary bricks. */
  lemma GameLoopKeepsRevealed(e: Engine)
    requires Runnable(e)
    requires Valid(e)
    ensures AllOrdinary(GameLoop(e).loaded.value.level.revealedBricks)
  {
    var ld := e.loaded.value;
    var l1 := UpdateLocations(ld.level);
    var c := CheckCollisions(l1, e.camera, ld.initial);
    if c.reset {
      assert c.level.revealedBricks == ld.initial.revealedBricks;
    }
  }

  /** While running, each elapsed second takes exactly one second off the clock and changes nothing else. */
  lemma {:induction false} SecondsCountDown(e: Engine, n: nat)
    requires Valid(e) && e.status == Running
    ensures var ld := e.loaded.value;
            Elapse(e, n) == e.(loaded := Some(ld.(level := ld.level.(remainingTime := ld.level.remainingTime - n as real))))
    decreases n
  {
    if n > 0 {
      SecondsCountDown(e, n - 1);
    }
  }

  /** A tick on a level whose clock has run out, with no death to reload it, stops play. */
  lemma OutOfTimeStopsPlay(e: Engine)
    requires Runnable(e)
    requires e.loaded.value.level.remainingTime <= 0.0
    ensures !Resolved(e).reset ==> GameLoop(e).status != Running
  {
  }

  /**
   * The time budget: a freshly loaded level that sees its 400 seconds pass
   * is still in play with the clock at zero, and its next tick without a
   * death ends play.
   */
  lemma TimeBudgetRunsOut(e: Engine)
    requires Valid(e) && Runnable(e)
    requires e.loaded.value.level.remainingTime == TimeLimit
    ensures Runnable(Elapse(e, 400))
    ensures Elapse(e, 400).loaded.value.level.remainingTime == 0.0
    ensures !Resolved(Elapse(e, 400)).reset ==> GameLoop(Elapse(e, 400)).status != Running
  {
    SecondsCountDown(e, 400);
    OutOfTimeStopsPlay(Elapse(e, 400));
  }

  /** Choosing "start game" on the start screen opens the map list; nothing else changes. */
  lemma StartGameOpensMapList(e: Engine, images: Images)
    requires Valid(e) && e.status == StartScreen && e.selection == StartGame
    ensures ReceiveInput(e, Select, images) == e.(status := MapSelection)
  {
  }

  /** After a reset the map stays loaded, and "start game" from the start screen reaches the map list. */
  lemma ResetThenStart(e: Engine, images: Images)
    requires Valid(e) && e.selection == StartGame
    ensures Valid(Reset(e))
    ensures ReceiveInput(Reset(e), Select, images).status == MapSelection
    ensures ReceiveInput(Reset(e), Select, images).loaded == e.loaded
    ensures ReceiveInput(Reset(e), Select, images).camera == NewCamera
  {
  }

  /** Escape pauses a running level and Escape again resumes it exactly as it was. */
  lemma EscapeTwiceResumes(e: Engine, images: Images)
    requires Valid(e) && e.status == Running
    ensures PressKey(e, EscapeKey, images).status == Paused
    ensures PressKey(PressKey(e, EscapeKey, images), EscapeKey, images)
              == e.(sounds := e.sounds + [BackgroundPause, BackgroundResume])
  {
  }

  /** The pause action swaps running and paused, and does nothing to the mode anywhere else. */
  lemma PauseResumeToggles(e: Engine, images: Images)
    requires Valid(e)
    ensures var r := ReceiveInput(e, PauseResume, images);
            && (e.status == Running ==> r.status == Paused)
            && (e.status == Paused ==> r.status == Running)
            && (e.status != Running && e.status != Paused ==> r == e)
  {
  }

  /** Help, about, game over and mission passed ignore every action but going to the start screen. */
  lemma FrozenModes(e: Engine, input: ButtonAction, images: Images)
    requires Valid(e)
    requires e.status in {HelpScreen, AboutScreen, GameOver, MissionPassed}
    requires input != GoToStartScreen
    ensures ReceiveInput(e, input, images) == e
  {
  }

  /** While paused, only resuming and going to the start screen do anything. */
  lemma PausedIgnores(e: Engine, input: ButtonAction, images: Images)
    requires Valid(e) && e.status == Paused
    requires input != PauseResume && input != GoToStartScreen
    ensures ReceiveInput(e, input, images) == e
  {
  }

  /** Leaving a finished level restarts the camera and music. */
  lemma LeaveFinishedLevel(e: Engine, images: Images)
    requires Valid(e) && (e.status == GameOver || e.status == MissionPassed)
    ensures ReceiveInput(e, GoToStartScreen, images) == Reset(e)
  {
  }

  /** On the start screen, up then down leaves the cursor where it was. */
  lemma StartScreenCursor(e: Engine, images: Images)
    requires Valid(e) && e.status == StartScreen
    ensures ReceiveInput(ReceiveInput(e, GoUp, images), GoDown, images) == e
  {
    SelectRoundTrip(e.selection, true);
  }

  /**
   * Choosing the only map from the first screen loads it when its image can
   * be read, falls back to the start screen when it cannot, and changes
   * nothing when the file is missing.
   */
  lemma FirstMapSelection(images: Images)
    ensures var r := ReceiveInput(Initial, Select, images);
            var name := "Start Game.png";
            && (name in images && images[name].Some? ==>
                  r.status == Running && r.loaded.Some? && r.loaded.value.level.remainingTime == TimeLimit)
            && (name in images && images[name].None? ==> r.status == StartScreen && r.loaded.None?)
            && (name !in images ==> r == Initial)
  {
  }

  /** Collisions and the flag bonus never take points away. */
  lemma GameLoopPoints(e: Engine)
    requires Runnable(e)
    ensures GameLoop(e).loaded.value.level.mario.value.points >= e.loaded.value.level.mario.value.points
  {
    var ld := e.loaded.value;
    var l1 := UpdateLocations(ld.level);
    assert l1.mario.value.points == ld.level.mario.value.points;
  }

  /** A tick that leaves Mario without lives stops the level. */
  lemma NoLivesStopsPlay(e: Engine)
    requires Runnable(e)
    ensures GameLoop(e).loaded.value.level.mario.value.lives == 0 ==> GameLoop(e).status != Running
  {
  }

  /**
   * Lives can pass zero without stopping play: a small Mario with one life
   * who walks into two Goombas side by side in the same tick loses two
   * lives, the map resets, and the level goes on with Mario at -1 lives.
   */
  lemma TwoGoombasLeaveNegativeLives()
    ensures var m := NewMario(100.0, 576.0).(lives := 1);
            var l := Level(Some(m), [], [], [], [NewGoomba(140.0, 576.0), NewGoomba(140.0, 576.0)],
                           Some(NewEndFlag(10000.0, 528.0)), TimeLimit);
            var e := Engine(Running, StartGame, 0, NewCamera, Some(Loaded(l, l)), []);
            && Runnable(e)
            && Resolved(e).reset
            && GameLoop(e).loaded.value.level.mario.value.lives == -1
            && GameLoop(e).status == Running
  {
    var m := NewMario(100.0, 576.0).(lives := 1);
    var g := NewGoomba(140.0, 576.0);
    var l := Level(Some(m), [], [], [], [g, g], Some(NewEndFlag(10000.0, 528.0)), TimeLimit);
    var e := Engine(Running, StartGame, 0, NewCamera, Some(Loaded(l, l)), []);
    var l1 := UpdateLocations(l);
    var mb := UpdateLocation(m.body);
    var gb := UpdateLocation(g.body);
    assert l1.enemies == [Goomba(gb), Goomba(gb)];
    assert gb.x == 143.0 && gb.y == 576.0;
    assert mb.x == 100.0 && mb.y == 576.0;
    var foes := EnemyBodies(l1.enemies);
    assert foes == [gb, gb];
    var solids := Bodies(AllBricks(l1));
    assert solids == [];
    var bottom := BottomPass(l1.mario.value, solids, foes);
    var top := TopPass(bottom.mario, solids);
    assert top.body.x == 100.0 && top.body.y == 576.0 && top.toRight && top.lives == 1;
    assert IsSmall(top.form);
    var lead := SideBounds(top.body, RightSide);
    assert lead == Rect(136, 588, 12, 24);
    assert SideBounds(gb, LeftSide) == Rect(143, 588, 12, 24);
    assert Hits(lead, gb, LeftSide);
    assert foes[..1] == [gb] && foes[..1][..0] == [];
    assert HitCount(lead, foes[..1][..0], LeftSide) == 0;
    assert HitCount(lead, foes[..1], LeftSide) == 1;
    assert HitCount(lead, foes, LeftSide) == 2;
    var side := HorizontalPass(top, solids, foes, NewCamera);
    assert side.dies && side.mario.lives == -1;
    var c := CheckCollisions(l1, NewCamera, l);
    assert c.reset;
    assert c.level.mario.value.lives == -1;
    assert c.level.mario.value.body.x == 50.0;
    assert c.level.endPoint == l.endPoint && c.level.remainingTime == TimeLimit;
  }

  /** Lives only go down in a tick, by at most one per enemy. */
  lemma GameLoopLives(e: Engine)
    requires Runnable(e)
    ensures var before := e.loaded.value.level;
            var after := GameLoop(e).loaded.value.level;
            before.mario.value.lives - |before.enemies| <= after.mario.value.lives <= before.mario.value.lives
  {
    var ld := e.loaded.value;
    var l1 := UpdateLocations(ld.level);
    assert l1.mario.value.lives == ld.level.mario.value.lives;
  }
}
