/**
 * CommandHistoryMenuController: the selection in the command history menu,
 * moved up and down cyclically over the past inputs.
 */
module HistoryMenu {
  import opened Results
  import opened InputHistories

  const DefaultSelectionIndex: nat := 0

  /** moveDown on a non-empty list of n entries: the next entry, wrapping to the first. */
  function MovedDown(selection: Option<nat>, n: nat): (r: Option<nat>)
    requires n > 0
    ensures r.Some? && r.value < n
    ensures selection.None? ==> r.value == DefaultSelectionIndex
    ensures selection.Some? && selection.value + 1 < n ==> r.value == selection.value + 1
    ensures selection.Some? && selection.value == n - 1 ==> r.value == 0
  {
    match selection
    case None => Some(DefaultSelectionIndex)
    case Some(i) => Some((i + 1) % n)
  }

  /** moveUp on a non-empty list of n entries: the previous entry, wrapping to the last. */
  function MovedUp(selection: Option<nat>, n: nat): (r: Option<nat>)
    requires n > 0
    requires selection.Some? ==> selection.value < n
    ensures r.Some? && r.value < n
    ensures selection.None? ==> r.value == DefaultSelectionIndex
    ensures selection.Some? && selection.value > 0 ==> r.value == selection.value - 1
    ensures selection.Some? && selection.value == 0 ==> r.value == n - 1
  {
    match selection
    case None => Some(DefaultSelectionIndex)
    case Some(i) => Some((n + i - 1) % n)
  }

  /** Moving down then up returns to a selected entry. */
  lemma DownThenUp(i: nat, n: nat)
    requires i < n
    ensures MovedUp(MovedDown(Some(i), n), n) == Some(i)
  {
  }

  /** Moving up then down returns to a selected entry. */
  lemma UpThenDown(i: nat, n: nat)
    requires i < n
    ensures MovedDown(MovedUp(Some(i), n), n) == Some(i)
  {
  }

  class CommandHistoryMenuController {
    /** The history whose (live) list of past commands the menu shows. */
    const history: InputHistory
    var commandSelectionIndex: Option<nat>

    /** A selection always designates an entry of the list. */
    ghost predicate Valid()
      reads this, history
    {
      history.Valid() && (commandSelectionIndex.Some? ==> commandSelectionIndex.value < |history.pastCommands|)
    }

    /** The constructor: nothing selected. */
    constructor(commandHistory: InputHistory)
      requires commandHistory.Valid()
      ensures Valid() && history == commandHistory && commandSelectionIndex.None?
    {
      history := commandHistory;
      commandSelectionIndex := None;
    }

    /**
     * moveDown: nothing happens on an empty list; otherwise the selection
     * moves and `shown` is the entry handed to the command box setter.
     */
    method MoveDown() returns (shown: Option<string>)
      requires Valid()
      modifies this
      ensures Valid()
      ensures |history.pastCommands| == 0 ==> commandSelectionIndex == old(commandSelectionIndex) && shown.None?
      ensures |history.pastCommands| > 0 ==>
        && commandSelectionIndex == MovedDown(old(commandSelectionIndex), |history.pastCommands|)
        && shown == Some(history.pastCommands[commandSelectionIndex.value])
    {
      var n := |history.pastCommands|;
      if n == 0 {
        return None;
      }
      commandSelectionIndex := MovedDown(commandSelectionIndex, n);
      shown := SetInputToSelection();
    }

    /** moveUp: as moveDown, in the other direction. */
    method MoveUp() returns (shown: Option<string>)
      requires Valid()
      modifies this
      ensures Valid()
      ensures |history.pastCommands| == 0 ==> commandSelectionIndex == old(commandSelectionIndex) && shown.None?
      ensures |history.pastCommands| > 0 ==>
        && commandSelectionIndex == MovedUp(old(commandSelectionIndex), |history.pastCommands|)
        && shown == Some(history.pastCommands[commandSelectionIndex.value])
    {
      var n := |history.pastCommands|;
      if n == 0 {
        return None;
      }
      commandSelectionIndex := MovedUp(commandSelectionIndex, n);
      shown := SetInputToSelection();
    }

    /** setSelection: an index outside the list is ignored. */
    method SetSelection(index: int) returns (shown: Option<string>)
      requires Valid()
      modifies this
      ensures Valid()
      ensures !(0 <= index < |history.pastCommands|) ==> commandSelectionIndex == old(commandSelectionIndex) && shown.None?
      ensures 0 <= index < |history.pastCommands| ==>
        commandSelectionIndex == Some(index) && shown == Some(history.pastCommands[index])
    {
      if index < 0 || index >= |history.pastCommands| {
        return None;
      }
      commandSelectionIndex := Some(index);
      shown := SetInputToSelection();
    }

    /** clearSelection */
    method ClearSelection()
      requires Valid()
      modifies this
      ensures Valid() && commandSelectionIndex.None?
    {
      commandSelectionIndex := None;
    }

    /** setInputToSelection: the selected entry, if any, as handed to the command box setter. */
    function SetInputToSelection(): (shown: Option<string>)
      reads this, history
      requires Valid()
      ensures shown.Some? <==> commandSelectionIndex.Some?
      ensures shown.Some? ==> shown.value in history.pastCommands
    {
      match commandSelectionIndex
      case None => None
      case Some(i) => Some(history.pastCommands[i])
    }

    /**
     * A new input never invalidates the selection: the history only grows (up
     * to its bound), so the selected index still designates an entry.
     */
    method AddInputKeepsSelection(commandInput: string)
      requires Valid()
      modifies history
      ensures Valid()
      ensures history.pastCommands == AddedInput(old(history.pastCommands), commandInput)
      ensures commandSelectionIndex == old(commandSelectionIndex)
    {
      history.AddInput(commandInput);
    }
  }
}
