/**
 * The map component: the view over the cell map that turns clicks into
 * toggles or pattern stamps, right clicks into arming and disarming, and
 * owns the open dialog, the tick-rate label and the status line.
 */
module MapComponent {
  import opened Wrappers
  import opened Grid
  import opened GameData
  import opened Generation
  import opened PatternCreation
  import opened ToolFunctions

  /** `'options' | 'patterns'`; `null` is `None`. */
  datatype Dialog = Options | Patterns

  /** A `number | string` shown in the template. */
  datatype Label = Text(text: string) | Number(n: int)

  /** `tickRate`: the fastest and slowest rates are named, any other is shown as a number. */
  function TickRateLabel(rate: int): (l: Label)
    ensures l == Text("fastest") <==> rate == MinTickRate
    ensures l == Text("slowest") <==> rate == MaxTickRate
    ensures l.Number? <==> rate != MinTickRate && rate != MaxTickRate
    ensures l.Number? ==> l.n == rate
  {
    if rate == MinTickRate then Text("fastest")
    else if rate == MaxTickRate then Text("slowest")
    else Number(rate)
  }

  /** `info`: the message's content, or the empty string when there is none. */
  function Info(message: Option<Message>): (info: string)
    ensures message.Some? ==> info == message.value.content
    ensures message == None ==> info == ""
  {
    match message
    case Some(m) => m.content
    case None => ""
  }

  /** The controls that have a hover text. */
  const Controls: set<string> :=
    {"save", "load", "clear", "play", "stop", "step", "options", "patterns", "tick-rate-entry"}

  /** `mouseEnter(text)`: the hover text of a control; nothing for anything else. */
  function Tooltip(text: string): (content: string)
    ensures content != "" <==> text in Controls
  {
    if text == "save" then "Save the current map in the browser's local storage"
    else if text == "load" then "Load the map saved in the browser's local storage, if any"
    else if text == "clear" then "Kills all the cells in the map"
    else if text == "play" then "Start the game"
    else if text == "stop" then "Stop the game"
    else if text == "step" then "One tick"
    else if text == "options" then "Configure the map"
    else if text == "patterns" then "Select a pattern to create"
    else if text == "tick-rate-entry" then "Adjust the tick rate"
    else ""
  }

  /** `onRightClick()` on the session: disarm if armed, else re-arm the last pattern if any. */
  function RightClicked(s: Session): (t: Session)
    ensures s.active.Some? ==> t == Session(None, s.active)
    ensures s.active == None && s.last.Some? ==> t == Session(s.last, s.last)
    ensures s.active == None && s.last == None ==> t == s
  {
    if s.active.Some? then Cancelled(s)
    else if s.last.Some? then Started(s, s.last.value)
    else s
  }

  /** A session that has ever armed a pattern. */
  predicate HasHistory(s: Session)
  {
    s.active.Some? || s.last.Some?
  }

  /**
   * Right clicks alternate: after the first, every second one returns to
   * the same session; the armed state flips on every click once a pattern
   * has been armed, and a session that never armed one is left alone.
   */
  lemma RightClickAlternates(s: Session)
    ensures RightClicked(RightClicked(RightClicked(s))) == RightClicked(s)
    ensures HasHistory(s) ==> RightClicked(s).active.Some? != s.active.Some?
    ensures HasHistory(s) ==> HasHistory(RightClicked(s))
    ensures !HasHistory(s) ==> RightClicked(s) == s
  {
  }

  /** Two right clicks on an armed session re-arm the same pattern, now remembered as last. */
  lemma RightClickTwice(s: Session)
    requires s.active.Some?
    ensures RightClicked(RightClicked(s)) == Session(s.active, s.active)
  {
  }

  /** `dialog(d)`: an open dialog is closed by any dialog button; otherwise `d` opens. */
  function DialogToggled(active: Option<Dialog>, d: Option<Dialog>): (next: Option<Dialog>)
    ensures active.Some? ==> next == None
    ensures active == None ==> next == d
  {
    if active.Some? then None
    else if d.Some? then d
    else active
  }

  /** Pressing the same dialog button twice from the closed state opens and then closes it. */
  lemma DialogTwice(d: Dialog)
    ensures DialogToggled(None, Some(d)) == Some(d)
    ensures DialogToggled(DialogToggled(None, Some(d)), Some(d)) == None
  {
  }

  class Map {
    const gameData: GameDataService
    const patternCreation: PatternCreationService
    var activeDialog: Option<Dialog>

    /** Both the view and the pattern service work on the same game data. */
    predicate Valid()
      reads this, patternCreation, patternCreation.gliderSelector, patternCreation.lwSpaceshipSelector
    {
      patternCreation.gameData == gameData && patternCreation.Valid()
    }

    constructor (gameData: GameDataService, patternCreation: PatternCreationService)
      requires patternCreation.gameData == gameData && patternCreation.Valid()
      ensures this.gameData == gameData && this.patternCreation == patternCreation
      ensures activeDialog == None && Valid()
    {
      this.gameData := gameData;
      this.patternCreation := patternCreation;
      activeDialog := None;
    }

    /** `ngOnInit()`: an 80 by 198 map of dead cells. */
    method NgOnInit()
      modifies gameData`cellMap
      ensures gameData.cellMap == Zeros(80, 198)
    {
      gameData.InitMap(80, 198);
    }

    method ClearMap()
      requires Rectangular(gameData.cellMap) && |gameData.cellMap| >= 1
      modifies gameData`cellMap
      ensures gameData.cellMap == Zeros(|old(gameData.cellMap)|, |old(gameData.cellMap)[0]|)
    {
      gameData.ClearMap();
    }

    method StepFwd()
      requires Rectangular(gameData.cellMap) && |gameData.cellMap| >= 1
      modifies gameData`cellMap, gameData`nextCellMap
      ensures gameData.cellMap == NextGeneration(old(gameData.cellMap))
    {
      gameData.StepFwd();
    }

    /** `onTickRateChange(event)` with the slider's value already parsed. */
    method OnTickRateChange(value: int)
      modifies gameData`tickRate
      ensures gameData.tickRate == MaxTickRate - value
    {
      gameData.OnTickRateChange(value);
    }

    /**
     * `onClick(row, col)`: selects the cell, then stamps the armed pattern
     * there, or toggles the cell when nothing is armed.
     */
    method OnClick(row: int, col: int)
      requires Valid() && Rectangular(gameData.cellMap) && InBounds(gameData.cellMap, row, col)
      modifies gameData`selectedRow, gameData`selectedCol, gameData`cellMap
      modifies patternCreation.gliderSelector`value, patternCreation.lwSpaceshipSelector`value
      ensures Valid()
      ensures gameData.selectedRow == row && gameData.selectedCol == col
      ensures patternCreation.activePattern == None ==> gameData.cellMap == Flip(old(gameData.cellMap), row, col)
      ensures patternCreation.activePattern.Some? ==>
        var p := patternCreation.activePattern.value;
        gameData.cellMap == Stamp(old(gameData.cellMap),
          Placed(Shapes(p)[old(patternCreation.SelectorOf(p).value)], row, col,
                 |old(gameData.cellMap)|, |old(gameData.cellMap)[0]|))
        && patternCreation.SelectorOf(p).value == Wrap(old(patternCreation.SelectorOf(p).value) + 1, 4)
      ensures patternCreation.activePattern == None ==>
        unchanged(patternCreation.gliderSelector, patternCreation.lwSpaceshipSelector)
      ensures patternCreation.activePattern == Some(Glider) ==>
        patternCreation.lwSpaceshipSelector.value == old(patternCreation.lwSpaceshipSelector.value)
      ensures patternCreation.activePattern == Some(LwSpaceship) ==>
        patternCreation.gliderSelector.value == old(patternCreation.gliderSelector.value)
    {
      gameData.SetCoordinates(row, col);
      if patternCreation.IsPatternCreateInProgress() {
        patternCreation.FinishPatternCreate();
      } else {
        gameData.FlipCell();
      }
    }

    /** `onRightClick()`: disarms, or re-arms the last pattern; the context menu is suppressed. */
    method OnRightClick() returns (showMenu: bool)
      requires patternCreation.gameData == gameData
      modifies patternCreation`activePattern, patternCreation`lastActivePattern, gameData`message
      ensures !showMenu
      ensures patternCreation.CurrentSession() == RightClicked(old(patternCreation.CurrentSession()))
      ensures old(patternCreation.activePattern).Some? ==> gameData.message == None
      ensures old(patternCreation.activePattern) == None && old(patternCreation.lastActivePattern).Some? ==>
        gameData.message == Some(Message("Generating " + Name(old(patternCreation.lastActivePattern).value),
                                         "pattern-creation-service"))
      ensures !HasHistory(old(patternCreation.CurrentSession())) ==> gameData.message == old(gameData.message)
    {
      if patternCreation.activePattern.Some? {
        patternCreation.CancelPatternCreate();
      } else {
        var lastActivePattern := patternCreation.lastActivePattern;
        if lastActivePattern.Some? {
          patternCreation.StartPatternCreate(lastActivePattern.value);
        }
      }
      showMenu := false;
    }

    /** `dialog(d)` */
    method ToggleDialog(d: Option<Dialog>)
      modifies this`activeDialog
      ensures activeDialog == DialogToggled(old(activeDialog), d)
    {
      if activeDialog.Some? {
        activeDialog := None;
      } else if d.Some? {
        activeDialog := d;
      }
    }

    /** `mouseEnter(text)`: shows the control's hover text, from the map. */
    method MouseEnter(text: string)
      modifies gameData`message
      ensures gameData.message == Some(Message(Tooltip(text), "map"))
    {
      gameData.message := Some(Message(Tooltip(text), "map"));
    }

    /** `mouseLeave()`: clears the status line. */
    method MouseLeave()
      modifies gameData`message
      ensures gameData.message == None && Info(gameData.message) == ""
    {
      gameData.message := None;
    }
  }
}
