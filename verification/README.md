# A verified model of a Java Mario platformer

This project models the game logic of a single-file Java platformer, `src/Main.java`, in Dafny. It covers:
- how a level is decoded from a map image;
- the per-tick motion of the game objects;
- the fixed-order collision resolver of `MapManager`;
- the end-flag, time and game-over rules;
- the scrolling and shaking camera;
- the menu cursors;
- the `GameEngine` mode machine that turns key presses into actions.

It also proves properties about these parts.

Everything is an immutable datatype and a pure function:
- Positions and speeds are `real`.
- Java's `(int)` cast is `Geometry.Trunc`, which rounds toward zero.
- `Rectangle.intersects` is strict overlap of two rectangles, both with positive width and height.
- Each Java `for` loop over a list is a fold over a sequence, in list order. Later contacts therefore overwrite earlier ones, as in the source.
- Sound requests are recorded as a sequence of `Sound` events.

The modules follow the classes of the source:

| module | file | models |
|---|---|---|
| `Geometry` | geometry.dfy | `java.awt.Rectangle`, the `(int)` cast |
| `Entities` | entities.dfy | `GameObject`, `Mario`, `MarioForm`, `Goomba`, the brick classes, `EndFlag` |
| `Levels` | levels.dfy | `Map1`, and `MapManager`'s flag, time and game-over rules |
| `Collisions` | collisions.dfy | `MapManager.checkCollisions` and its four passes |
| `Cameras` | cameras.dfy | `Camera`, `GameEngine.updateCamera` |
| `Menus` | menus.dfy | `StartScreenSelection`, `MapSelection` |
| `Modes`, `Input` | modes.dfy, input.dfy | `GameStatus`, `ButtonAction`, `InputManager` |
| `Decoder` | decoder.dfy | `MapCreator.createMap` |
| `GameEngine` | engine.dfy | `GameEngine`: input handling, map loading, the game loop |
| `Sounds`, `Opt` | sounds.dfy, opt.dfy | audio events, and a nullable reference |

Some behaviours of the code that the model keeps exactly:
- **Scan order.** The map image is scanned column by column: x is the outer loop and y the inner loop (`src/Main.java:805-806`). This decides which pixel wins when an image has two Mario pixels or two end pixels (`Decoder.CreateMapMario`, `Decoder.CreateMapFlag`).
- **Landing.** A Mario at y = 300 falling with no speed onto a 48x48 brick at y = 348 does not land in the first tick:
  - After the move his bottom rectangle spans y 324 to 347, and the brick's top rectangle starts at 348.
  - `intersects` is strict, so they do not overlap.
  - He lands a few ticks later, at y = 348 - 48 + 1 = 301.
  
  `Collisions.LandingScenario` proves the landing from y = 301.
- **Mission bonus.** The flag bonus is twice Mario's truncated height. When Mario touches the flag while above the screen (y at most -1), the flag latches but the bonus is negative. The game loop reads a negative bonus as "not passed", so the bonus is lost (`Levels.HighTouchLosesBonus`).
- **Same-tick outcome.** Game over and mission passed can both be decided in one tick. Mission passed is checked last, so it wins (`GameEngine.GameLoop`).
- **Lives below zero.** The game-over test asks for exactly zero lives. Each enemy met in one horizontal pass costs a small Mario a life, so two Goombas side by side take a Mario with one life to -1. The map then resets and play goes on (`GameEngine.TwoGoombasLeaveNegativeLives`).

## Model

| member | source | states |
|---|---|---|
| Geometry.Trunc | src/Main.java:1412-1430 | The `(int)` cast rounds toward zero: the result is the whole part of a non-negative value and minus the whole part of a negative one. |
| Geometry.IntersectsIffCommonPoint | src/Main.java:1412-1430 | The overlap test holds exactly when the two rectangles' areas share a point. |
| Entities.SideBoundsWithin | src/Main.java:1412-1430 | Each of the four sub-rectangles lies inside the object's box. |
| Entities.OppositeSidesApart | src/Main.java:1412-1426 | The top half ends where the bottom half starts. The left quarter ends before the right quarter starts. An object's opposite sub-rectangles never overlap. |
| Entities.UpdateLocation | src/Main.java:1331-1347 | One tick of motion: x advances by the horizontal speed. A fall whose speed is not negative speeds up by gravity and never rises. A jump whose speed is spent turns into a fall. A jump with speed left rises and slows down. A standing object keeps its height. An object is never both jumping and falling afterwards unless it was before. |
| Entities.FallingDescends | src/Main.java:1331-1347 | Under gravity alone, after n ticks a falling object whose speed is not negative is still falling, its speed has grown by n * 0.38, and it is no higher. From the second tick on it is strictly lower. |
| Entities.Jump | src/Main.java:1111-1117 | Mario starts a jump at speed 10 only when he is neither jumping nor falling. Otherwise nothing changes. His position is kept either way. |
| Entities.Move | src/Main.java:1119-1128 | Walking right sets speed 5. Walking left sets -5 only while Mario is right of the camera's edge, and otherwise keeps his speed. The facing always follows the key. |
| Entities.OnTouchEnemy | src/Main.java:1130-1143 | Mario dies exactly when he is small, and then loses one life. A super or fire Mario survives, becomes small and 48x48, and keeps his lives. Position and points are kept. |
| Entities.ResetLocation | src/Main.java:1185-1191 | Mario goes back to x = 50 at rest, falling and not jumping. His height, lives, points and form are kept. |
| Entities.UpdateFlag | src/Main.java:1265-1274 | An untouched flag never moves. A touched flag above 576 takes an ordinary motion step. A touched flag whose bottom is at or below 576 is put back so that its bottom is exactly 576, with no speed. |
| Entities.FlagStays | src/Main.java:1265-1274 | A touched flag resting with its bottom at 576 stays exactly where it is for any number of ticks. |
| Entities.FlagLands | src/Main.java:1265-1274 | A touched flag falling straight down comes to rest with its bottom at 576, within two ticks more than the gravity steps its remaining distance needs. |
| Levels.NewBricksNeverBreak | src/Main.java:996-1024 | A brick as the map creator builds it is not breaking, so animating it changes nothing and it is never dropped. |
| Levels.AddRevealedBrick | src/Main.java:2027-2029 | The revealed list grows by exactly the given brick, at its end. The soft bricks, enemies and Mario are untouched. |
| Levels.RemoveAtFirst | src/Main.java:2003-2006 | Removing a brick takes out exactly the first brick at the position. The others keep their order. |
| Levels.RemoveAtAbsent | src/Main.java:2003-2006 | With no brick at the position, removal changes nothing. |
| Levels.AnimateRevealed | src/Main.java:2000-2008 | When no revealed brick is breaking, the revealed-brick loop keeps both lists as they are. It never grows either list. |
| Levels.UpdateLocations | src/Main.java:1995-2011 | Mario takes one motion step and keeps his lives, points and form. Each enemy, in its place, takes one motion step, and none appears or disappears. The flag takes one flag step, so it moves only once touched. The ground bricks and the clock are untouched. The revealed bricks stay ordinary bricks. |
| Levels.TimeOverIff | src/Main.java:2044-2050 | Taking time off the clock runs it out exactly when at least the time left is taken. A clock that has run out stays out. |
| Levels.PassMission | src/Main.java:77-85 | Reaching the flag for the first time latches it and pays twice Mario's truncated height. Otherwise the answer is -1 and the level is unchanged. |
| Levels.MissionLatches | src/Main.java:77-85 | Once the flag has paid out, asking again pays nothing. A payout happens only on the call that latches the flag. |
| Levels.HighTouchLosesBonus | src/Main.java:77-85 | Touching the flag while above the screen latches it but yields a bonus of at most -2. |
| Levels.EndLevelBoundary | src/Main.java:87-89 | 319 past the flag does not end the level; 320 does. A level that has ended has a latched flag, or latches it now. |
| Collisions.HitCountIsCardinality | src/Main.java:123-130 | The running count of contacts in the enemy loop equals the number of distinct enemies met. |
| Collisions.HitCountZero | src/Main.java:123-130 | The count never exceeds the number of bodies. It is zero exactly when none is met. |
| Collisions.RespondOverwrites | src/Main.java:114-121 | Responding to two bricks in a row is the same as responding to the second one alone. |
| Collisions.Resolve | src/Main.java:114-121 | The brick loop keeps Mario's size and jumping flag. Landing keeps his x and horizontal speed. A head bump keeps those and the falling flag. Being blocked keeps his height, vertical speed and falling flag. |
| Collisions.ResolveShape | src/Main.java:114-121 | After the brick loop Mario is either unchanged or in the state one single brick's response gives. |
| Collisions.ResolveNoHit | src/Main.java:114-121 | Meeting no brick leaves Mario as he was. |
| Collisions.ResolveLastWins | src/Main.java:114-121 | The last brick met decides the outcome of the loop. |
| Collisions.BottomPass | src/Main.java:103-139 | After the bottom pass Mario's bottom is never below the floor, and he has gained 100 points per stomp. His x, speed, size and jumping flag are unchanged, and nothing but his body and points changes. |
| Collisions.BottomPassStomps | src/Main.java:123-130 | The stomp count is the number of distinct enemies whose top Mario's feet meet. It is at most the number of enemies. The points grow by 100 times that number. |
| Collisions.BottomPassLands | src/Main.java:109-136 | When Mario's feet meet a brick's top, he ends standing with no vertical speed. He is at the last such brick's top plus one, or on the floor. |
| Collisions.BottomPassFalls | src/Main.java:111-136 | With nothing underfoot and above the floor, the pass only marks Mario falling, unless he is mid-jump. |
| Collisions.LandingScenario | src/Main.java:114-121 | A new Mario at y = 301 over a ground brick at y = 348 stays at 301, standing. |
| Collisions.TopPass | src/Main.java:141-153 | The top pass never moves Mario sideways and never changes his jumping or falling flags or his size. |
| Collisions.TopPassBumps | src/Main.java:145-152 | The last brick whose bottom Mario's head meets stops his rise and puts him just beneath it. |
| Collisions.TopPassClear | src/Main.java:145-152 | With no brick overhead the top pass changes nothing. |
| Collisions.Touches | src/Main.java:177-183 | Over the enemies met, a small Mario loses one life per contact and plays one death sound each, and dies if any was met. A super or fire Mario shrinks and shakes the camera on the first contact, then loses one life per further contact. The death flag reflects only the last contact. |
| Collisions.HorizontalPass | src/Main.java:155-195 | Lives go down by the lives lost to the contacts counted from the leading rectangle, and Mario dies exactly when some were lost. After a contact Mario is small. With no contact his form and the camera are unchanged. The camera shakes when a big Mario is hit. A Mario still walking left ends right of the camera's edge. His height, vertical motion, points and facing are unchanged. |
| Collisions.HorizontalClear | src/Main.java:155-195 | With no brick or enemy ahead and clear of the camera's edge, the pass changes nothing. |
| Collisions.HorizontalBlocked | src/Main.java:164-175 | Walking into a brick stops Mario flush against the last brick met, with no horizontal speed. |
| Collisions.ScanStep | src/Main.java:204-226 | One brick of the enemy loop keeps the enemy's x and size. It may only flip the speed's sign. The enemy stands from then on exactly when this brick's top meets its bottom or it stood already. When it lands it has no vertical speed. |
| Collisions.EnemyScan | src/Main.java:201-226 | The brick loop for one enemy keeps its x and size and at most flips its speed. When it stands on nothing, only the speed may have changed. |
| Collisions.EnemyStandsIff | src/Main.java:202-226 | The enemy stands exactly when some brick's top meets its bottom rectangle as it was before the loop. |
| Collisions.EnemyStep | src/Main.java:201-237 | After its pass an enemy's bottom is never below the floor. Its x and size are kept, and its speed is kept or reversed. |
| Collisions.EnemyStepLands | src/Main.java:220-225 | An enemy whose bottom meets some brick's top ends its pass with no vertical motion. |
| Collisions.EnemyStepFalls | src/Main.java:228-236 | An enemy meeting no brick keeps its height. It is falling afterwards exactly when it is above the floor or was falling already. |
| Collisions.EnemyPass | src/Main.java:197-238 | Every enemy is checked on its own against the bricks. None is added or removed, and all end above the floor. |
| Collisions.TurnPrefix | src/Main.java:211-218 | While the enemy lands on nothing and meets a single brick ahead, its speed is reversed from that brick on and unchanged before it. |
| Collisions.EnemyTurnsAtWall | src/Main.java:211-218 | An enemy that lands on nothing and meets exactly one brick ahead, and none behind, reverses its speed. |
| Collisions.GoombaTurnsAtBrick | src/Main.java:1055-1058 | A new Goomba walking right at 3 into a ground brick turns to -3 in the same pass. |
| Collisions.CheckCollisions | src/Main.java:91-101 | Without a death, the bricks, flag and clock are unchanged and the enemies keep their number and x. After a death the map is the reloaded one, with Mario at x = 50 with no speed, falling and not jumping, and a new camera. Every enemy ends above the floor. Points never go down. Lives go down by at most one per enemy. |
| Cameras.MoveCam | src/Main.java:642-655 | During a shake the requested shift is ignored: x moves +4 on an even count and -4 on an odd one, and the count drops by one. Otherwise both shifts apply. The count never goes negative. |
| Cameras.ShakeAlternates | src/Main.java:637-655 | For the 60 moves after a shake, x alternates +4, -4, ... whatever is requested. y stays put and the camera stays shaking. |
| Cameras.ShakeReturns | src/Main.java:637-655 | A whole shake returns the camera to where it was, and the next move applies the requested shift again. |
| Cameras.UpdateCamera | src/Main.java:412-422 | Outside a shake the camera never moves left or vertically. It follows Mario's speed exactly when he walks right and is more than 600 ahead of it, and then keeps his lead constant. |
| Input.KeyPressed | src/Main.java:677-714 | Up is a menu move in the menus and a jump elsewhere. Down is a menu move in the menus and nothing elsewhere. Escape pauses or resumes in a level and goes to the start screen elsewhere. Right, Left, Enter and Space walk right, walk left, select and fire in every mode. No action is produced only for an unknown key, or for Down outside the menus. |
| Input.KeyReleased | src/Main.java:724-727 | Only releasing Left or Right ends a walk. |
| Menus.SelectionOf | src/Main.java:1733-1741 | An entry exists exactly for lines 0 to 2, and it is drawn on that line. |
| Menus.Select | src/Main.java:1743-1756 | The cursor moves one line up or down, wrapping around the three lines. |
| Menus.SelectRoundTrip | src/Main.java:1743-1756 | Up then down, or down then up, returns to the same entry. Three moves the same way come back. A move always changes the entry. |
| Menus.SelectMap | src/Main.java:1662-1666 | A map is returned exactly for an index inside the list, and it is a listed map. |
| Menus.ChangeSelectedMap | src/Main.java:1668-1681 | The map cursor stays inside the list, moving one step or wrapping at the ends. |
| Menus.ChangeSelectedMapRoundTrip | src/Main.java:1668-1681 | Moving the map cursor up then down, or down then up, returns to the same map. |
| Decoder.LegendRoundTrip | src/Main.java:796-803 | Each legend colour reads back as its own kind, and only a legend colour reads as a kind. |
| Decoder.InertPixels | src/Main.java:802-838 | The koopa colour, and any pixel that is not fully opaque, places nothing. |
| Decoder.CellsExact | src/Main.java:805-808 | The scan visits every pixel of the image exactly once, column by column. |
| Decoder.CreateMap | src/Main.java:782-790 | An image that cannot be loaded gives no level. A loaded one gives a level with the given time and no revealed bricks. |
| Decoder.DecodeLists | src/Main.java:812-830 | The soft-brick, ground-brick and enemy lists the scan fills are the pixels of their colours, in scan order. Ground and pipe pixels are interleaved as met. |
| Decoder.DecodeMarioLast | src/Main.java:831-834 | Mario is set, not added: the last spawn pixel scanned wins. |
| Decoder.DecodeMarioNone | src/Main.java:831-834 | Without a spawn pixel the level keeps the Mario it had. |
| Decoder.DecodeFlagLast | src/Main.java:835-838 | The flag is set, not added: the last end pixel scanned wins, half a tile to its right. |
| Decoder.DecodeFlagNone | src/Main.java:835-838 | Without an end pixel the level keeps the flag it had. |
| Decoder.DecodeIgnoresInert | src/Main.java:816-817 | Surprise-brick, koopa and unknown pixels leave no trace: dropping them from the scan changes nothing. |
| Decoder.CreateMapObjects | src/Main.java:805-830 | A created map's soft bricks, ground bricks and Goombas are the objects of their pixels, in column-major order. |
| Decoder.CreateMapBrickIff | src/Main.java:812-815 | A soft brick is in the created map exactly when an ordinary-brick pixel sits at its tile. |
| Decoder.CreateMapGoombaIff | src/Main.java:826-830 | A Goomba is in the created map exactly when a Goomba pixel sits at its tile. |
| Decoder.CreateMapCounts | src/Main.java:805-830 | A created map has one soft brick per ordinary-brick pixel, one ground brick per ground or pipe pixel, and one Goomba per Goomba pixel. |
| Decoder.CreateMapMario | src/Main.java:831-834 | Mario spawns at the last Mario pixel in column-major order. With no Mario pixel the map has no Mario. |
| Decoder.CreateMapFlag | src/Main.java:835-838 | The flag stands half a tile right of the last end pixel in column-major order. With no end pixel the map has no flag. |
| GameEngine.InitialValid | src/Main.java:289-293 | The engine starts on the map list with no map loaded, in a consistent state. |
| GameEngine.CreateLevel | src/Main.java:348-357 | A map whose image can be read starts running with the decoded level, and the music restarts. An unreadable image clears the map and returns to the start screen. A missing file changes nothing. The camera and cursors are kept. |
| GameEngine.SelectMapViaKeyboard | src/Main.java:337-342 | With the cursor on a listed map, that map is loaded. Otherwise nothing happens. |
| GameEngine.PauseGame | src/Main.java:496-504 | Running and paused swap, pausing or resuming the music. Every other mode ignores the request. |
| GameEngine.Reset | src/Main.java:320-328 | Going back to the start screen gives a new camera and restarts the music. The map stays loaded. |
| GameEngine.StartGameOpensMapList | src/Main.java:434-446 | Choosing "start game" on the start screen opens the map list, and nothing else changes. |
| GameEngine.ResetThenStart | src/Main.java:320-328 | After going back to the start screen the map stays loaded, and choosing "start game" reaches the map list with a new camera. |
| GameEngine.Steer | src/Main.java:457-467 | Jump makes Mario jump, and the jump sound plays exactly when he can jump. Walk right and walk left move him against the camera's edge. Releasing a walk key stops him. Any other input changes nothing. Only Mario changes: the rest of the level, the mode, the camera, the map cursor and the level a death reloads are kept. |
| GameEngine.ReceiveInput | src/Main.java:432-484 | Every action keeps the engine consistent. Going to the start screen always ends on it. |
| GameEngine.PressKey | src/Main.java:677-732 | An unknown key changes nothing, and every key keeps the engine consistent. |
| GameEngine.ReleaseKey | src/Main.java:724-732 | Releasing any key but Left or Right changes nothing. |
| GameEngine.EscapeTwiceResumes | src/Main.java:496-504 | Escape pauses a running level, and Escape again resumes it exactly as it was, with a pause and a resume recorded. |
| GameEngine.PauseResumeToggles | src/Main.java:457-474 | The pause action turns running into paused and paused into running. In every other mode it changes nothing. |
| GameEngine.FrozenModes | src/Main.java:432-484 | Help, about, game over and mission passed ignore every action except going to the start screen. |
| GameEngine.PausedIgnores | src/Main.java:471-474 | While paused, only resuming and going to the start screen do anything. |
| GameEngine.LeaveFinishedLevel | src/Main.java:475-483 | Leaving a finished level resets the camera and restarts the music. |
| GameEngine.StartScreenCursor | src/Main.java:441-445 | On the start screen, up then down leaves the engine as it was. |
| GameEngine.FirstMapSelection | src/Main.java:447-449 | Choosing the only map from the first screen starts it with 400 seconds when its image can be read. An unreadable image leads to the start screen with no map. A missing file changes nothing. |
| GameEngine.GameLoop | src/Main.java:395-410 | After motion and collisions, the flag pays twice Mario's truncated height when he reaches it untouched and the payment is not negative. Otherwise, a Mario 320 past the flag passes the mission. Failing that, play ends when lives are exactly zero or the clock has run out, and otherwise goes on. The flag latches once Mario reaches it. The camera takes one follow step after Mario, and the tick's sounds are appended. Enemies, bricks and clock are those left by the collisions. The level stays playable and the level a death reloads is kept. |
| GameEngine.Tick | src/Main.java:372-377 | A tick keeps the engine consistent, and does nothing unless a playable map is running. |
| GameEngine.SecondsCountDown | src/Main.java:380-387 | While running, n elapsed seconds take exactly n off the clock and change nothing else. |
| GameEngine.OutOfTimeStopsPlay | src/Main.java:395-401 | A tick on a level whose clock is at or below zero does not leave play running, unless a death reloads the level. |
| GameEngine.TimeBudgetRunsOut | src/Main.java:380-401 | A level loaded with 400 seconds is still running with the clock at zero after 400 elapsed seconds, and its next tick without a death ends play. |
| GameEngine.GameLoopKeepsRevealed | src/Main.java:395-410 | A tick keeps the revealed-brick list made of ordinary bricks. |
| GameEngine.GameLoopPoints | src/Main.java:395-410 | A tick never takes points away. |
| GameEngine.NoLivesStopsPlay | src/Main.java:399-401 | A tick that leaves Mario with exactly zero lives stops play. |
| GameEngine.TwoGoombasLeaveNegativeLives | src/Main.java:155-195 | A small Mario with one life meeting two Goombas in one tick ends it at -1 lives, reset, with play still running. |
| GameEngine.GameLoopLives | src/Main.java:395-410 | Lives only go down in a tick, by at most one per enemy. |

## Left out

- Threads, the 60-ticks-per-second run loop and the one-second timer are left out. `GameEngine.Tick` and `GameEngine.SecondElapsed` are the events the loop fires.
- Drawing (`UIManager`, `draw` methods), sprites, `Animation`, `ImageLoader`'s sub-images and the background image are not modelled. They have no effect on game state.
- Audio is not played. Each request (jump, stomp, death, background restart, pause and resume) is appended to a recorded sequence.
- Selecting a map with the mouse (`selectMapViaMouse`, `MapSelection.selectMap(Point)`) is left out. It needs screen coordinates of drawn menu items.
- `checkFireballContact` and the fire action are left out: their bodies are empty in the source. Coins and the `MarioForm` animation are also left out: nothing in the core awards a coin or a power-up.
- 32-bit integer overflow of points, lives and rectangle coordinates is not modelled, and neither is IEEE rounding of doubles. Reals are exact.
- Geometry.Trunc: does not model the saturation of Java's `(int)` cast at the int range.
- Reloading the map on death re-reads the same image. The model passes the level decoded when the map was chosen (`Loaded.initial`), which is what re-reading yields. The stored file path is therefore not kept.
- A missing map file makes `ImageIO.read` throw an exception that nothing catches, which ends the key event. The model leaves the engine unchanged for that event (`GameEngine.CreateLevel`).
- A map image without a Mario or end pixel loads, and the source then fails on a null dereference in the first tick. The model keeps such a level and `GameEngine.Tick` leaves it untouched.
- GameEngine.Steer: when the level has no Mario, input leaves the engine unchanged rather than failing on a null dereference.
- Levels.RemoveAtFirst: the source removes a finished revealed brick by object identity. The model removes the first soft brick at the same position, because the model has no object identity.
- Enemies are never removed: the source's `removeObjects` does nothing, so the collected stomp and touch lists have no effect and are not modelled.
- `Map1.removeEnemy` and `getCoins` have no callers in the core and are left out.
- `MapManager.getRemainingTime` only feeds the display and is left out.
