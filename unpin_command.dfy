/**
 * UnpinCommand: unpins the person at a displayed position, then moves every
 * pinned person in front of every unpinned one.
 */
module UnpinCommands {
  import opened Results
  import opened Persons
  import opened Text
  import opened Indexes
  import opened PersonOrder
  import opened UniquePersons
  import opened Models
  import opened Commands

  const MessageUnpinPersonSuccessPrefix: string := "Unpinned "

  datatype UnpinCommand = UnpinCommand(index: Index)

  /** The success message: the format "Unpinned %1$d" applied to the one-based index. */
  function UnpinSuccess(index: Index): (msg: string)
    ensures |msg| > |MessageUnpinPersonSuccessPrefix|
    ensures msg[..|MessageUnpinPersonSuccessPrefix|] == MessageUnpinPersonSuccessPrefix
    ensures var digits := msg[|MessageUnpinPersonSuccessPrefix|..];
      IsDigits(digits) && DigitsValue(digits) == index.OneBased()
  {
    NatToStringRoundTrip(index.OneBased());
    MessageUnpinPersonSuccessPrefix + NatToString(index.OneBased())
  }

  /** The list that unpinning the entry target of s leaves. */
  function AfterUnpin(s: seq<Person>, target: Person): seq<Person>
    requires target in s
  {
    Prioritised(s[IndexOf(s, target) := WithPin(target, Pin(false))])
  }

  /**
   * Unpinning keeps the same persons except that the target is now unpinned,
   * keeps the list free of duplicates, and leaves every pinned person in
   * front of every unpinned one.
   */
  lemma AfterUnpinSpec(s: seq<Person>, target: Person)
    requires Unique(s) && target in s
    ensures var r := AfterUnpin(s, target);
      && Unique(r)
      && multiset(r) == multiset(s) - multiset{target} + multiset{WithPin(target, Pin(false))}
      && WithPin(target, Pin(false)) in r
      && forall i, j :: 0 <= i < j < |r| && r[j].pin.isPinned ==> r[i].pin.isPinned
  {
    var k := IndexOf(s, target);
    var edited := s[k := WithPin(target, Pin(false))];
    ReplaceBySamePerson(s, k, WithPin(target, Pin(false)));
    PrioritisedPermutation(edited);
    UniquePermutation(edited, Prioritised(edited));
    PrioritisedPinsFirst(edited);
    assert WithPin(target, Pin(false)) in multiset(Prioritised(edited));
  }

  /**
   * execute: fails, changing nothing, when the index is not displayed;
   * otherwise it never fails: the shown person is replaced by its unpinned
   * copy and the pinned persons are moved to the front. It does not save a
   * state of the book.
   */
  method Execute(c: UnpinCommand, model: ModelManager) returns (r: Result<string, string>)
    requires model.Valid()
    modifies model.book.persons
    ensures model.Valid()
    ensures model.book.history == old(model.book.history) && model.book.pointer == old(model.book.pointer)
    ensures c.index.zeroBased >= |old(model.GetFilteredPersonList())| ==>
      r == Err(MessageInvalidPersonDisplayedIndex) && model.Persons() == old(model.Persons())
    ensures c.index.zeroBased < |old(model.GetFilteredPersonList())| ==>
      var target := old(model.GetFilteredPersonList())[c.index.zeroBased];
      && target in old(model.Persons())
      && r == Ok(UnpinSuccess(c.index))
      && model.Persons() == AfterUnpin(old(model.Persons()), target)
  {
    var lastShownList := model.GetFilteredPersonList();
    if c.index.zeroBased >= |lastShownList| {
      return Err(MessageInvalidPersonDisplayedIndex);
    }
    var personToUnpin := lastShownList[c.index.zeroBased];
    assert personToUnpin in model.Persons();
    var editedPerson := WithPin(personToUnpin, Pin(false));
    var before := model.Persons();
    var replaced := model.SetPerson(personToUnpin, editedPerson);
    assert replaced.Pass?;
    var k := IndexOf(before, personToUnpin);
    assert model.Persons() == before[k := editedPerson];
    assert model.Persons()[k] == editedPerson;
    var partitioned := model.UnpinPerson(editedPerson);
    r := Ok(UnpinSuccess(c.index));
  }
}
