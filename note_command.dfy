/**
 * NoteCommand: replaces the note of the person at a displayed position and
 * then shows every person.
 */
module NoteCommands {
  import opened Results
  import opened Persons
  import opened Indexes
  import opened UniquePersons
  import opened Models
  import opened Commands

  datatype NoteCommand = NoteCommand(targetIndex: Index, noteString: string)

  /** The list that giving the entry target of s the note noteString leaves. */
  function AfterNote(s: seq<Person>, target: Person, noteString: string): seq<Person>
    requires target in s
  {
    s[IndexOf(s, target) := WithNote(target, Note(noteString))]
  }

  /**
   * Changing a note keeps the list free of duplicates and every entry in
   * place; only the target is replaced, by a copy that differs in its note
   * alone.
   */
  lemma AfterNoteSpec(s: seq<Person>, target: Person, noteString: string)
    requires Unique(s) && target in s
    ensures var r := AfterNote(s, target, noteString);
      && Unique(r)
      && |r| == |s|
      && r[IndexOf(s, target)].note.value == noteString
      && r[IndexOf(s, target)].(note := target.note) == target
      && forall i :: 0 <= i < |s| && i != IndexOf(s, target) ==> r[i] == s[i]
  {
    ReplaceBySamePerson(s, IndexOf(s, target), WithNote(target, Note(noteString)));
  }

  /**
   * execute: fails, changing nothing, when the index is not displayed;
   * otherwise it never fails: the shown person is replaced by the copy with
   * the new note, which is returned (the success message formats it), and the
   * filter is reset to show every person. It does not save a state of the
   * book.
   */
  method Execute(c: NoteCommand, model: ModelManager) returns (r: Result<Person, string>)
    requires model.Valid()
    modifies model, model.book.persons
    ensures model.Valid()
    ensures model.book.history == old(model.book.history) && model.book.pointer == old(model.book.pointer)
    ensures c.targetIndex.zeroBased >= |old(model.GetFilteredPersonList())| ==>
      && r == Err(MessageInvalidPersonDisplayedIndex)
      && model.Persons() == old(model.Persons())
      && model.currentPredicate == old(model.currentPredicate)
      && model.predicateHistory == old(model.predicateHistory)
    ensures c.targetIndex.zeroBased < |old(model.GetFilteredPersonList())| ==>
      var target := old(model.GetFilteredPersonList())[c.targetIndex.zeroBased];
      && target in old(model.Persons())
      && r == Ok(WithNote(target, Note(c.noteString)))
      && model.Persons() == AfterNote(old(model.Persons()), target, c.noteString)
      && model.currentPredicate == ShowAll
      && model.predicateHistory == old(model.predicateHistory) + [old(model.currentPredicate)]
      && model.GetFilteredPersonList() == model.Persons()
  {
    var lastShownList := model.GetFilteredPersonList();
    if c.targetIndex.zeroBased >= |lastShownList| {
      return Err(MessageInvalidPersonDisplayedIndex);
    }
    var personToNote := lastShownList[c.targetIndex.zeroBased];
    assert personToNote in model.Persons();
    var editedPerson := WithNote(personToNote, Note(c.noteString));
    var replaced := model.SetPerson(personToNote, editedPerson);
    assert replaced.Pass?;
    model.UpdateFilteredPersonList(ShowAll);
    FilterAll(model.Persons(), ShowAll, model.matchers);
    r := Ok(editedPerson);
  }
}
