/** The engine's mode and the abstract actions input is turned into. */
module Modes {

  datatype GameStatus =
    | GameOver
    | Paused
    | Running
    | StartScreen
    | MapSelection
    | HelpScreen
    | MissionPassed
    | AboutScreen

  datatype ButtonAction =
    | Jump
    | MRight
    | MLeft
    | Crouch
    | Fire
    | Start
    | PauseResume
    | ActionCompleted
    | Select
    | GoUp
    | GoDown
    | GoToStartScreen
    | NoAction
}
