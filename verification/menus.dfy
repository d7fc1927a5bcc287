/**
 * The two menu cursors: the three-line start screen (`StartScreenSelection`)
 * and the map list (`MapSelection`), both of which wrap around.
 */
module Menus {

  import opened Opt

  datatype StartScreenSelection = StartGame | ViewHelp | ViewAbout

  /** Line each entry is drawn on. */
  function LineNumber(s: StartScreenSelection): int
  {
    match s
    case StartGame => 0
    case ViewHelp => 1
    case ViewAbout => 2
  }

  /** `getSelection`: the entry on a line, none for any other number. */
  function SelectionOf(n: int): (r: Option<StartScreenSelection>)
    ensures r.Some? <==> 0 <= n < 3
    ensures r.Some? ==> LineNumber(r.value) == n
  {
    if n == 0 then Some(StartGame)
    else if n == 1 then Some(ViewHelp)
    else if n == 2 then Some(ViewAbout)
    else None
  }

  /** `select`: up moves one line up, down one line down, wrapping around three lines. */
  function Select(s: StartScreenSelection, toUp: bool): (r: StartScreenSelection)
    ensures LineNumber(r) == (LineNumber(s) + (if toUp then 2 else 1)) % 3
  {
    var line := LineNumber(s);
    var selection := line - (if toUp then 1 else -1);
    var wrapped := if selection == -1 then 2 else if selection == 3 then 0 else selection;
    match SelectionOf(wrapped)
    case Some(r) => r
    case None => assert false; s
  }

  /** Up and down undo each other, and three moves the same way come back. */
  lemma SelectRoundTrip(s: StartScreenSelection, toUp: bool)
    ensures Select(Select(s, toUp), !toUp) == s
    ensures Select(Select(Select(s, toUp), toUp), toUp) == s
    ensures Select(s, toUp) != s
  {
  }

  /** The maps offered (`MapSelection.getMaps`). */
  const MapNames: seq<string> := ["Start Game.png"]

  /** `MapSelection.selectMap(int)`: the name at an index, none when out of range. */
  function SelectMap(names: seq<string>, index: int): (r: Option<string>)
    ensures r.Some? <==> 0 <= index < |names|
    ensures r.Some? ==> r.value in names
  {
    if index < |names| && index > -1 then Some(names[index]) else None
  }

  /** `MapSelection.changeSelectedMap`: the cursor moves one step, wrapping at both ends. */
  function ChangeSelectedMap(count: nat, index: int, up: bool): (r: int)
    ensures count > 0 && 0 <= index < count ==> 0 <= r < count
    ensures up && 0 < index ==> r == index - 1
    ensures !up && index < count - 1 ==> r == index + 1
  {
    if up then
      if index <= 0 then count - 1 else index - 1
    else
      if index >= count - 1 then 0 else index + 1
  }

  /** Within range, moving up then down (or down then up) returns to the same map. */
  lemma ChangeSelectedMapRoundTrip(count: nat, index: int, up: bool)
    requires 0 <= index < count
    ensures ChangeSelectedMap(count, ChangeSelectedMap(count, index, up), !up) == index
  {
  }
}
