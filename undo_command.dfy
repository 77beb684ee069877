/** UndoCommand: restores the previous saved state of the book, when there is one. */
module UndoCommands {
  import opened Results
  import opened Versioned
  import opened Models
  import opened Commands

  const MessageSuccess: string := "Successfully undone last command"

  /**
   * execute: refuses, changing nothing, when there is no earlier state (with
   * the message MESSAGE_INVALID_NO_UNDO, whose text speaks of redo);
   * otherwise undoes once, which cannot then fail, and leaves a state to redo.
   */
  method Execute(model: ModelManager) returns (r: Result<string, string>)
    requires model.Valid()
    modifies model.book, model.book.persons
    ensures model.Valid()
    ensures !old(model.book.State()).HasUndo() ==>
      r == Err(MessageInvalidNoUndo) && model.book.State() == old(model.book.State())
    ensures old(model.book.State()).HasUndo() ==>
      && r == Ok(MessageSuccess)
      && Undone(old(model.book.State())) == Ok(model.book.State())
      && model.book.State().HasRedo()
  {
    if !model.AddressBookHasUndo() {
      return Err(MessageInvalidNoUndo);
    }
    var undone := model.Undo();
    r := Ok(MessageSuccess);
  }
}
