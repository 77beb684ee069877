/**
 * What a command hands back to the user interface, and the user-visible
 * messages the commands share.
 */
module Commands {
  import opened Results
  import opened Persons
  import opened UniquePersons

  /** CommandResult: the feedback text and the two window flags. */
  datatype CommandResult = CommandResult(feedbackToUser: string, showHelp: bool, exit: bool)

  /** The one-argument CommandResult constructor: neither flag is set. */
  function Feedback(feedbackToUser: string): (r: CommandResult)
    ensures r.feedbackToUser == feedbackToUser && !r.showHelp && !r.exit
  {
    CommandResult(feedbackToUser, false, false)
  }

  const MessageInvalidCommandFormat: string := "Invalid command format! \n"
  const MessageInvalidPersonDisplayedIndex: string := "The person index provided is invalid"
  const MessagePersonsListedOverviewSuffix: string := " persons listed!"
  const MessageSortSuccessful: string := "Sorted successfully."
  const MessageSortUnsuccessful: string := "Unable to sort."
  /** MESSAGE_INVALID_NO_UNDO, whose text speaks of redo. */
  const MessageInvalidNoUndo: string := "There is nothing to redo"
  /** MESSAGE_INVALID_NO_REDO, whose text speaks of undo. */
  const MessageInvalidNoRedo: string := "There is nothing to undo"

  // ---------------------------------------------------------------------------
  // Edited copies of a person (EditPersonDescriptor.createEditedPerson, which
  // is not part of this model, taken as: every field copied except the one the
  // descriptor sets).

  /** The copy of p whose pin is the given one. */
  function WithPin(p: Person, pin: Pin): (q: Person)
    ensures q.pin == pin && IsSamePerson(p, Some(q))
    ensures q.(pin := p.pin) == p
  {
    p.(pin := pin)
  }

  /** The copy of p whose note is the given one. */
  function WithNote(p: Person, note: Note): (q: Person)
    ensures q.note == note && IsSamePerson(p, Some(q))
    ensures q.(note := p.note) == p
  {
    p.(note := note)
  }

  /**
   * Replacing an entry of a list without duplicates by the same person keeps
   * the list free of duplicates, and swaps exactly that one entry.
   */
  lemma ReplaceBySamePerson(s: seq<Person>, k: nat, x: Person)
    requires Unique(s) && k < |s| && IsSamePerson(s[k], Some(x))
    ensures Unique(s[k := x])
    ensures multiset(s[k := x]) == multiset(s) - multiset{s[k]} + multiset{x}
    ensures |s[k := x]| == |s| && x in s[k := x]
  {
    var t := s[k := x];
    assert t[k] == x;
    forall i, j | 0 <= i < j < |t|
      ensures !IsSamePerson(t[i], Some(t[j]))
    {
      assert !IsSamePerson(s[i], Some(s[j]));
    }
  }
}
