/** The audio events the game asks the sound manager to play, recorded instead of played. */
module Sounds {

  datatype Sound =
    | JumpSound
    | StompSound
    | MarioDiesSound
    | BackgroundRestart
    | BackgroundPause
    | BackgroundResume

  /** `n` copies of one event, for a pass that plays it once per contact. */
  function Repeat(s: Sound, n: nat): (r: seq<Sound>)
    ensures |r| == n
    ensures forall i :: 0 <= i < n ==> r[i] == s
  {
    seq(n, _ => s)
  }
}
