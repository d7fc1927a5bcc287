/** `InputManager`: which key means which action in which mode. */
module Input {

  import opened Modes

  /** The keys the game reacts to; every other key is `OtherKey`. */
  datatype Key = UpKey | DownKey | RightKey | LeftKey | EnterKey | EscapeKey | SpaceKey | OtherKey

  predicate InMenu(status: GameStatus)
  {
    status == StartScreen || status == MapSelection
  }

  /**
   * `keyPressed`: arrows move a menu cursor in the menus and steer Mario
   * elsewhere; Escape pauses or resumes a level in play and otherwise goes
   * back to the start screen.
   */
  function KeyPressed(key: Key, status: GameStatus): (a: ButtonAction)
    ensures key == UpKey ==> (a == GoUp <==> InMenu(status)) && (a == Jump <==> !InMenu(status))
    ensures key == DownKey ==> (a == GoDown <==> InMenu(status)) && (a == NoAction <==> !InMenu(status))
    ensures key == EscapeKey ==>
              (a == PauseResume <==> status == Running || status == Paused)
              && (a == GoToStartScreen <==> status != Running && status != Paused)
    ensures key == RightKey ==> a == MRight
    ensures key == LeftKey ==> a == MLeft
    ensures key == EnterKey ==> a == Select
    ensures key == SpaceKey ==> a == Fire
    ensures a == NoAction <==> key == OtherKey || (key == DownKey && !InMenu(status))
  {
    match key
    case UpKey => if InMenu(status) then GoUp else Jump
    case DownKey => if InMenu(status) then GoDown else NoAction
    case RightKey => MRight
    case LeftKey => MLeft
    case EnterKey => Select
    case EscapeKey => if status == Running || status == Paused then PauseResume else GoToStartScreen
    case SpaceKey => Fire
    case OtherKey => NoAction
  }

  /** `keyReleased`: letting go of an arrow that walks ends the walk. */
  function KeyReleased(key: Key): (a: ButtonAction)
    ensures a == ActionCompleted <==> key == RightKey || key == LeftKey
    ensures a != ActionCompleted ==> a == NoAction
  {
    if key == RightKey || key == LeftKey then ActionCompleted else NoAction
  }
}
