/** RedoCommand: restores the state the last undo stepped back from, when there is one. */
module RedoCommands {
  import opened Results
  import opened Versioned
  import opened Models
  import opened Commands

  const MessageSuccess: string := "Successfully redone command"

  /**
   * execute: refuses, changing nothing, when there is no later state (with
   * the message MESSAGE_INVALID_NO_REDO, whose text speaks of undo);
   * otherwise redoes once, which cannot then fail, and leaves a state to undo.
   */
  method Execute(model: ModelManager) returns (r: Result<string, string>)
    requires model.Valid()
    modifies model.book, model.book.persons
    ensures model.Valid()
    ensures !old(model.book.State()).HasRedo() ==>
      r == Err(MessageInvalidNoRedo) && model.book.State() == old(model.book.State())
    ensures old(model.book.State()).HasRedo() ==>
      && r == Ok(MessageSuccess)
      && Redone(old(model.book.State())) == Ok(model.book.State())
      && model.book.State().HasUndo()
  {
    if !model.AddressBookHasRedo() {
      return Err(MessageInvalidNoRedo);
    }
    var redone := model.Redo();
    r := Ok(MessageSuccess);
  }
}
