# A verified model of the contact book's person list, history and commands

This project models the core of a desktop contact book (an AddressBook-Level-3
derivative). The modelled parts are:

- the list of unique persons, with pinning and sorting;
- the versioned address book that undo and redo walk through;
- the model manager, which holds the filtered view and the predicate history;
- the keyword search predicate and the parsers for find, sort, help and mass
  indexes;
- the recent-input history and the menu that scrolls through it;
- the delete, unpin, note, sort, find, undo, redo and help commands.

Each entity the Java code updates in place is a Dafny `class` whose methods
change its fields. Examples are `UniquePersonList`, `VersionedAddressBook`,
`ModelManager`, `InputHistory`, `FilteredPersonList` and
`CommandHistoryMenuController`. Each such method is proved against a pure
specification function, such as `Prioritised`, `Committed`, `Undone`, `Redone`,
`AddedInput` or `Filter`. The properties the program relies on are proved as
lemmas about those functions. Examples are uniqueness of persons by email,
pinned persons first, undo then redo restores the state, and the history keeps
the newest 20 inputs.

Value objects are `datatype`s: `Person`, `Pin`, `Note`, the keyword predicate
and the command records. Dafny's structural equality on them models each Java
`equals`.

Modules, one per source file or concern:

| module | file | models |
|---|---|---|
| `Results` | results.dfy | exceptions as `Outcome`/`Result` values |
| `Text` | text.dfy | `String.trim`, `isBlank`, `split("\\s+")`, `toLowerCase`, `compareTo`, decimal digits |
| `Persons` | person.dfy | `Person`, `Pin`, `Note` |
| `KeywordsPredicates` | keywords_predicate.dfy | `PersonContainsKeywordsPredicate` |
| `PersonOrder` | order.dfy | the sort comparators and `prioritisePins` as functions |
| `UniquePersons` | unique_person_list.dfy | `UniquePersonList` |
| `Versioned` | versioned.dfy | `VersionedAddressBook` |
| `InputHistories` | input_history.dfy | `InputHistory` |
| `HistoryMenu` | history_menu.dfy | `CommandHistoryMenuController` |
| `FilteredPersons` | filtered_person_list.dfy | `FilteredPersonList` |
| `Models` | model_manager.dfy | `ModelManager` |
| `Indexes` | index.dfy | `Index` |
| `MassOps` | mass_ops.dfy | `MassOpsIndexParser` |
| `Commands` | commands.dfy | `CommandResult`, `Messages` constants, editing one field of a person |
| `DeleteCommands` | delete_command.dfy | `DeleteCommand` |
| `UnpinCommands` | unpin_command.dfy | `UnpinCommand` |
| `NoteCommands` | note_command.dfy | `NoteCommand` |
| `SortCommands` | sort_command.dfy | `SortCommand`, `SortCommandParser` |
| `FindCommands` | find_command.dfy | `FindCommand` |
| `FindCommandParsers` | find_command_parser.dfy | `FindCommandParser` |
| `UndoCommands`, `RedoCommands` | undo_command.dfy, redo_command.dfy | `UndoCommand`, `RedoCommand` |
| `HelpCommands`, `HelpCommandParsers` | help_command.dfy | `HelpCommand`, `HelpCommandParser` |

Some behaviour is modelled as the code is written, and differs from what the
names suggest:

- `Messages.MESSAGE_INVALID_NO_UNDO` reads "There is nothing to redo".
  `MESSAGE_INVALID_NO_REDO` reads "There is nothing to undo". The model keeps
  the texts as written (`Commands.MessageInvalidNoUndo`,
  `Commands.MessageInvalidNoRedo`), so a failed undo reports "nothing to redo".
- `Person.isSamePerson` compares emails, not names, whatever its comment says.
  The model follows the code.
- `DeleteCommand.execute` and `NoteCommand.execute` do not call
  `commitAddressBook`; `SortCommand.execute` does. Comments in the source
  (DeleteCommand.java:79, ExitCommand.java:16) suggest that the caller commits
  after each command; that caller is not part of this model.
- `ModelManager.updateSortedFilteredPersonList` builds a `FilteredPersonList`,
  sorts it and then discards it. Its only lasting effect is to re-install the
  current predicate. The model keeps exactly that effect, and proves that the
  displayed list does not change.
- `unpinPerson` never changes the pin of the person it is given. It only
  re-partitions the list. `UnpinCommand` is what replaces the person with an
  unpinned copy before calling it.

Collaborators whose source is not part of this model become parameters:

- `StringUtil.containsPhraseIgnoreCase` and `StringUtil.isSimilar` are passed
  in as `KeywordsPredicates.Matchers`.
- The string form of a `HashSet<Tag>` is passed in as `PersonOrder.TagRenderer`.
- `AddressBook` is the `persons` list of `VersionedAddressBook`.
- `ModelManager.undoAddressBook`/`redoAddressBook`, called by the commands, are
  taken to be `undo`/`redo`.
- `EditPersonDescriptor.createEditedPerson` is taken to copy every field of the
  person except the one the descriptor sets. `Commands.WithPin` and
  `Commands.WithNote` rest on this, and so do the unpin and note commands.

## Model

Paths are under `src/main/java/seedu/address/`.

| member | source | states |
|---|---|---|
| Text.TrimStart | src/main/java/seedu/address/logic/parser/HelpCommandParser.java:13 | `trim` drops exactly the leading characters at or below U+0020, and no more |
| Text.TrimEnd | src/main/java/seedu/address/logic/parser/HelpCommandParser.java:13 | `trim` drops exactly the trailing characters at or below U+0020, and no more |
| Text.TrimEmptyIff | src/main/java/seedu/address/logic/parser/HelpCommandParser.java:13-14 | the trimmed text is empty iff every character is trimmable |
| Text.TrimIgnoresPadding | src/main/java/seedu/address/logic/parser/SortCommandParser.java:12 | padding of trimmable characters on either side does not change the trimmed text |
| Text.TrimIgnoresTrail | src/main/java/seedu/address/logic/parser/SortCommandParser.java:12 | trailing trimmable characters do not change the trimmed text |
| Text.Words | src/main/java/seedu/address/logic/parser/FindCommandParser.java:56 | `split("\\s+")` of a trimmed text gives non-empty words without white space |
| Text.WordsNonEmpty | src/main/java/seedu/address/logic/parser/FindCommandParser.java:54-56 | a text with a non-space character has at least one word |
| Text.ToLower | src/main/java/seedu/address/logic/commands/HelpCommand.java:94 | `toLowerCase` keeps the length and lower-cases each character |
| Text.StrLeqTotal | src/main/java/seedu/address/model/person/UniquePersonList.java:276 | `String.compareTo`'s order is total |
| Text.StrLeqTransitive | src/main/java/seedu/address/model/person/UniquePersonList.java:276 | `String.compareTo`'s order is transitive |
| Text.StrLeqAntisymmetric | src/main/java/seedu/address/model/person/UniquePersonList.java:276 | two strings ordered both ways are equal |
| Text.NatToStringRoundTrip | src/main/java/seedu/address/logic/commands/FindCommand.java:38-39 | the decimal text of a count reads back as that count |
| Persons.Pin.ToString | src/main/java/seedu/address/model/person/Pin.java:62-70 | "[PINNED]" exactly when pinned, "" otherwise |
| Persons.NewPin | src/main/java/seedu/address/model/person/Pin.java:33-36 | the no-argument pin is pinned |
| Persons.PinFromString | src/main/java/seedu/address/model/person/Pin.java:42-53 | only "" and "[PINNED]" are accepted; anything else is an illegal argument |
| Persons.PinRoundTrip | src/main/java/seedu/address/model/person/Pin.java:42-70 | every pin is read back from its string form |
| Persons.Note.ToString | src/main/java/seedu/address/model/person/Note.java:37-45 | a blank note shows as "<Blank Note>", any other note shows its value; the result is never blank |
| Persons.DefaultNote | src/main/java/seedu/address/model/person/Note.java:67-69 | the default note is empty, blank, and shows as "<Blank Note>" |
| Persons.NewPerson | src/main/java/seedu/address/model/person/Person.java:34-36 | the five-argument constructor keeps the fields, takes the default note and is not pinned |
| Persons.NewPersonWithNote | src/main/java/seedu/address/model/person/Person.java:41-51 | the six-argument constructor keeps the fields and the note and is not pinned |
| Persons.IsSamePersonReflexive | src/main/java/seedu/address/model/person/Person.java:103-110 | every person is the same person as itself |
| Persons.IsSamePersonSymmetric | src/main/java/seedu/address/model/person/Person.java:103-110 | identity by email is symmetric |
| Persons.IsSamePersonTransitive | src/main/java/seedu/address/model/person/Person.java:103-110 | identity by email is transitive |
| Persons.EqualIsSamePerson | src/main/java/seedu/address/model/person/Person.java:112-135 | full equality implies identity |
| Persons.SamePersonNotEqual | src/main/java/seedu/address/model/person/Person.java:99-135 | identity is strictly weaker than equality: a changed name keeps the identity but breaks equality |
| KeywordsPredicates.AnyKeywordIff | src/main/java/seedu/address/model/person/PersonContainsKeywordsPredicate.java:62-64 | `keywords.stream().anyMatch` holds iff some keyword passes the test |
| KeywordsPredicates.FieldTestIff | src/main/java/seedu/address/model/person/PersonContainsKeywordsPredicate.java:42-65 | one field's test holds iff some keyword matches that field by its own rule (phrase or fuzzy; phrase only for phone and tags) |
| KeywordsPredicates.TestIsDisjunction | src/main/java/seedu/address/model/person/PersonContainsKeywordsPredicate.java:41-51 | `test` holds iff some enabled field is matched by some keyword, in both directions |
| KeywordsPredicates.NoFieldsMatchesNobody | src/main/java/seedu/address/model/person/PersonContainsKeywordsPredicate.java:41-51 | with every search flag off nobody matches |
| KeywordsPredicates.NoKeywordsMatchesNobody | src/main/java/seedu/address/model/person/PersonContainsKeywordsPredicate.java:41-65 | with no keywords nobody matches |
| KeywordsPredicates.PhoneIgnoresSimilarity | src/main/java/seedu/address/model/person/PersonContainsKeywordsPredicate.java:44-45 | a phone search never consults the fuzzy matcher |
| KeywordsPredicates.WiderSearchKeepsMatches | src/main/java/seedu/address/model/person/PersonContainsKeywordsPredicate.java:41-65 | more keywords or more enabled fields never lose a match |
| PersonOrder.FieldOfPrefix | src/main/java/seedu/address/model/person/UniquePersonList.java:224-244 | exactly "n/", "p/", "e/", "a/", "t/" name a sort field, and each names its own field |
| PersonOrder.FieldOfPrefixRoundTrip | src/main/java/seedu/address/model/person/UniquePersonList.java:224-244 | each field is recovered from its prefix |
| PersonOrder.ParseSortOrder | src/main/java/seedu/address/model/person/UniquePersonList.java:206-270 | one prefix sorts by that field; "t/" then a non-tag prefix sorts within tags; the three error texts for a bad prefix, a bad pair or too many prefixes |
| PersonOrder.ParseSortOrderRoundTrip | src/main/java/seedu/address/model/person/UniquePersonList.java:206-270 | every sort order is parsed from its prefixes, and only from them |
| PersonOrder.LeqTotal | src/main/java/seedu/address/model/person/UniquePersonList.java:275-346 | each comparator (phone by numeric value, tags then field for within-tags) is total |
| PersonOrder.LeqTransitive | src/main/java/seedu/address/model/person/UniquePersonList.java:275-346 | each comparator is transitive |
| PersonOrder.Insert | src/main/java/seedu/address/model/person/UniquePersonList.java:276 | insertion adds exactly one copy of the person |
| PersonOrder.Sort | src/main/java/seedu/address/model/person/UniquePersonList.java:276 | `List.sort` keeps the same persons |
| PersonOrder.SortSorted | src/main/java/seedu/address/model/person/UniquePersonList.java:276 | `List.sort` leaves the list ordered by the comparator |
| PersonOrder.SortOfSortedIsIdentity | src/main/java/seedu/address/model/person/UniquePersonList.java:276 | an already ordered list is left as it is |
| PersonOrder.Pinned | src/main/java/seedu/address/model/person/UniquePersonList.java:143-154 | the pinned persons, drawn from the list |
| PersonOrder.Unpinned | src/main/java/seedu/address/model/person/UniquePersonList.java:143-154 | the unpinned persons, drawn from the list |
| PersonOrder.PartitionPermutation | src/main/java/seedu/address/model/person/UniquePersonList.java:143-154 | pinned and unpinned together are the whole list |
| PersonOrder.PinnedAppend | src/main/java/seedu/address/model/person/UniquePersonList.java:143-154 | partitioning distributes over concatenation |
| PersonOrder.PrioritisedPermutation | src/main/java/seedu/address/model/person/UniquePersonList.java:143-154 | `prioritisePins` is a permutation |
| PersonOrder.PrioritisedPinsFirst | src/main/java/seedu/address/model/person/UniquePersonList.java:143-154 | after `prioritisePins` no unpinned person precedes a pinned one |
| PersonOrder.PrioritisedKeepsOrder | src/main/java/seedu/address/model/person/UniquePersonList.java:143-154 | pinned and unpinned persons each keep their relative order |
| PersonOrder.PrioritisedIdempotent | src/main/java/seedu/address/model/person/UniquePersonList.java:143-154 | prioritising twice is prioritising once |
| PersonOrder.PinnedSorted | src/main/java/seedu/address/model/person/UniquePersonList.java:275-346 | the pinned and unpinned parts of a sorted list are sorted |
| PersonOrder.SortedAndPrioritisedSpec | src/main/java/seedu/address/model/person/UniquePersonList.java:275-346 | after a sort: same persons, pinned first, and each part ordered by the comparator |
| UniquePersons.UniqueIffBag | src/main/java/seedu/address/model/person/UniquePersonList.java:190-199 | no two entries share an email iff every email occurs once in the bag of persons |
| UniquePersons.UniquePermutation | src/main/java/seedu/address/model/person/UniquePersonList.java:143-154 | reordering the list keeps it unique |
| UniquePersons.HasSamePersonIff | src/main/java/seedu/address/model/person/UniquePersonList.java:36-39 | `anyMatch(isSamePerson)` holds iff some entry has the email |
| UniquePersons.IndexOf | src/main/java/seedu/address/model/person/UniquePersonList.java:116 | `indexOf` is -1 iff absent, otherwise the first position holding the person |
| UniquePersons.IndexOfUnique | src/main/java/seedu/address/model/person/UniquePersonList.java:116 | in a unique list `indexOf` finds the entry's own position |
| UniquePersons.RemoveAt | src/main/java/seedu/address/model/person/UniquePersonList.java:122 | `remove(int)` takes out exactly that entry |
| UniquePersons.InsertAt | src/main/java/seedu/address/model/person/UniquePersonList.java:150 | `add(int, p)` puts p at that position and adds it once |
| UniquePersons.RemoveKeepsUnique | src/main/java/seedu/address/model/person/UniquePersonList.java:77-82 | removing an entry keeps the list unique |
| UniquePersons.MoveKeepsUnique | src/main/java/seedu/address/model/person/UniquePersonList.java:148-150 | moving an entry keeps the list unique |
| UniquePersons.UniquePersonList.constructor | src/main/java/seedu/address/model/person/UniquePersonList.java:29-31 | a new list is empty |
| UniquePersons.UniquePersonList.Contains | src/main/java/seedu/address/model/person/UniquePersonList.java:36-39 | true iff some entry is the same person (same email) |
| UniquePersons.UniquePersonList.Equals | src/main/java/seedu/address/model/person/UniquePersonList.java:163-175 | equal iff the entries are equal in order |
| UniquePersons.UniquePersonList.Add | src/main/java/seedu/address/model/person/UniquePersonList.java:45-51 | a duplicate fails and changes nothing; otherwise the person is appended; the list stays unique |
| UniquePersons.UniquePersonList.SetPerson | src/main/java/seedu/address/model/person/UniquePersonList.java:58-71 | an absent target fails; an edited person clashing with another fails; otherwise the target is replaced in place |
| UniquePersons.UniquePersonList.Remove | src/main/java/seedu/address/model/person/UniquePersonList.java:77-82 | an absent person fails; otherwise exactly that entry goes |
| UniquePersons.UniquePersonList.SetPersonsFrom | src/main/java/seedu/address/model/person/UniquePersonList.java:84-87 | the contents become the other list's |
| UniquePersons.UniquePersonList.SetPersons | src/main/java/seedu/address/model/person/UniquePersonList.java:93-100 | a list with duplicates fails and changes nothing; otherwise it becomes the contents |
| UniquePersons.UniquePersonList.PersonsAreUnique | src/main/java/seedu/address/model/person/UniquePersonList.java:190-199 | the nested loop answers exactly whether no two entries are the same person |
| UniquePersons.UniquePersonList.PinPerson | src/main/java/seedu/address/model/person/UniquePersonList.java:113-124 | an absent person fails; otherwise it moves to the front and nothing else changes |
| UniquePersons.UniquePersonList.UnpinPerson | src/main/java/seedu/address/model/person/UniquePersonList.java:130-138 | an absent person fails; otherwise the list is re-partitioned, pinned first |
| UniquePersons.UniquePersonList.PrioritisePins | src/main/java/seedu/address/model/person/UniquePersonList.java:143-154 | the in-place loop leaves exactly the prioritised list |
| UniquePersons.UniquePersonList.VisitForPin | src/main/java/seedu/address/model/person/UniquePersonList.java:146-152 | one pass of the loop moves the visited person, when pinned, to the next pinned slot and keeps the loop state |
| UniquePersons.UniquePersonList.SortBy | src/main/java/seedu/address/model/person/UniquePersonList.java:206-346 | a bad prefix list fails with its message and changes nothing; otherwise the list is sorted then prioritised |
| Versioned.InitState | src/main/java/seedu/address/model/VersionedAddressBook.java:23-33 | a new book has one snapshot, its data, and nothing to undo or redo |
| Versioned.Committed | src/main/java/seedu/address/model/VersionedAddressBook.java:45-55 | a commit drops the redo snapshots, saves the data, and leaves undo possible and redo impossible |
| Versioned.Undone | src/main/java/seedu/address/model/VersionedAddressBook.java:63-78 | undo fails iff at the first snapshot; otherwise it steps back and restores that snapshot |
| Versioned.Redone | src/main/java/seedu/address/model/VersionedAddressBook.java:86-102 | redo fails iff at the last snapshot; otherwise it steps forward and restores that snapshot |
| Versioned.UndoThenRedo | src/main/java/seedu/address/model/VersionedAddressBook.java:63-102 | undo then redo gives back the state |
| Versioned.RedoThenUndo | src/main/java/seedu/address/model/VersionedAddressBook.java:63-102 | redo then undo gives back the state |
| Versioned.CommitThenUndo | src/main/java/seedu/address/model/VersionedAddressBook.java:45-78 | undo after a commit restores the previous snapshot, and redo returns to the commit |
| Versioned.CommitDiscardsRedo | src/main/java/seedu/address/model/VersionedAddressBook.java:121-130 | a commit leaves nothing to redo and does not grow the history beyond one snapshot |
| Versioned.UndoTimesRestores | src/main/java/seedu/address/model/VersionedAddressBook.java:63-78 | n undos restore the snapshot n steps back |
| Versioned.RedoTimesRestores | src/main/java/seedu/address/model/VersionedAddressBook.java:86-102 | n redos restore the snapshot n steps ahead |
| Versioned.UndoRedoTimes | src/main/java/seedu/address/model/VersionedAddressBook.java:63-102 | n undos then n redos give back the state |
| Versioned.VersionedAddressBook.constructor | src/main/java/seedu/address/model/VersionedAddressBook.java:23-33 | the state is the initial state of the given data |
| Versioned.VersionedAddressBook.ResetData | src/main/java/seedu/address/model/ModelManager.java:97-99 | only the current data changes |
| Versioned.VersionedAddressBook.Commit | src/main/java/seedu/address/model/VersionedAddressBook.java:45-55 | the state becomes the committed state |
| Versioned.VersionedAddressBook.RemoveAheadCurrent | src/main/java/seedu/address/model/VersionedAddressBook.java:121-130 | the loop removes exactly the snapshots after the pointer |
| Versioned.VersionedAddressBook.Undo | src/main/java/seedu/address/model/VersionedAddressBook.java:63-78 | fails with an index error and no change iff there is nothing to undo; otherwise the undone state |
| Versioned.VersionedAddressBook.Redo | src/main/java/seedu/address/model/VersionedAddressBook.java:86-102 | fails with an index error and no change iff there is nothing to redo; otherwise the redone state |
| Versioned.VersionedAddressBook.HasUndo | src/main/java/seedu/address/model/VersionedAddressBook.java:107-109 | true iff undo would succeed |
| Versioned.VersionedAddressBook.HasRedo | src/main/java/seedu/address/model/VersionedAddressBook.java:114-116 | true iff redo would succeed |
| Versioned.VersionedAddressBook.Equals | src/main/java/seedu/address/model/VersionedAddressBook.java:132-151 | equal iff data, history and pointer are equal |
| InputHistories.AddedInput | src/main/java/seedu/address/model/InputHistory.java:30-35 | the input goes first; when full the oldest entry is dropped; the size never exceeds 20 |
| InputHistories.HistoryOfIsRecentInputs | src/main/java/seedu/address/model/InputHistory.java:13-35 | after any inputs the history holds the last min(n, 20) of them, newest first |
| InputHistories.InputHistory.constructor | src/main/java/seedu/address/model/InputHistory.java:19-22 | a new history is empty |
| InputHistories.InputHistory.AddInput | src/main/java/seedu/address/model/InputHistory.java:30-35 | the history becomes `AddedInput` of the old one |
| InputHistories.InputHistory.GetPastCommands | src/main/java/seedu/address/model/InputHistory.java:40-42 | the entries, at most 20 |
| HistoryMenu.MovedDown | src/main/java/seedu/address/ui/controller/CommandHistoryMenuController.java:45-53 | no selection selects the first; otherwise the next entry, wrapping from the last to the first |
| HistoryMenu.MovedUp | src/main/java/seedu/address/ui/controller/CommandHistoryMenuController.java:58-67 | no selection selects the first; otherwise the previous entry, wrapping from the first to the last |
| HistoryMenu.DownThenUp | src/main/java/seedu/address/ui/controller/CommandHistoryMenuController.java:45-67 | moving down then up returns to the selection |
| HistoryMenu.UpThenDown | src/main/java/seedu/address/ui/controller/CommandHistoryMenuController.java:45-67 | moving up then down returns to the selection |
| HistoryMenu.CommandHistoryMenuController.constructor | src/main/java/seedu/address/ui/controller/CommandHistoryMenuController.java:34-40 | nothing is selected |
| HistoryMenu.CommandHistoryMenuController.MoveDown | src/main/java/seedu/address/ui/controller/CommandHistoryMenuController.java:45-53 | an empty list changes nothing; otherwise the selection moves down and that entry is shown |
| HistoryMenu.CommandHistoryMenuController.MoveUp | src/main/java/seedu/address/ui/controller/CommandHistoryMenuController.java:58-67 | an empty list changes nothing; otherwise the selection moves up and that entry is shown |
| HistoryMenu.CommandHistoryMenuController.SetSelection | src/main/java/seedu/address/ui/controller/CommandHistoryMenuController.java:69-76 | an index outside the list is ignored; otherwise it is selected and shown |
| HistoryMenu.CommandHistoryMenuController.ClearSelection | src/main/java/seedu/address/ui/controller/CommandHistoryMenuController.java:78-80 | nothing is selected |
| HistoryMenu.CommandHistoryMenuController.SetInputToSelection | src/main/java/seedu/address/ui/controller/CommandHistoryMenuController.java:82-86 | an entry is shown iff one is selected, and it is an entry of the history |
| HistoryMenu.CommandHistoryMenuController.AddInputKeepsSelection | src/main/java/seedu/address/model/InputHistory.java:30-35 | no method of its own: a model-only frame fact that recording an input (`addInput`) keeps the menu's selection valid and unchanged |
| FilteredPersons.SortedViewSpec | src/main/java/seedu/address/model/person/FilteredPersonList.java:35-98 | the view holds the source's persons, sorted once a comparator is chosen, in source order before |
| FilteredPersons.FilteredPersonList.constructor | src/main/java/seedu/address/model/person/FilteredPersonList.java:25-28 | a new view shows the source unsorted |
| FilteredPersons.FilteredPersonList.GetSortedList | src/main/java/seedu/address/model/person/FilteredPersonList.java:35-37 | the sorted list holds the source's persons |
| FilteredPersons.FilteredPersonList.SortByFilteredList | src/main/java/seedu/address/model/person/FilteredPersonList.java:44-64 | a field prefix chooses that comparator; any other prefix is ignored |
| FilteredPersons.FilteredPersonList.SortByField | src/main/java/seedu/address/model/person/FilteredPersonList.java:68-98 | the comparator is set and the view is ordered by it |
| Models.Filter | src/main/java/seedu/address/model/ModelManager.java:168-184 | the displayed list holds exactly the persons the predicate accepts |
| Models.FilterAppend | src/main/java/seedu/address/model/ModelManager.java:168-184 | filtering keeps the list's order |
| Models.FilterAll | src/main/java/seedu/address/model/ModelManager.java:38-50 | with no predicate, or show-all, every person is displayed |
| Models.FilterUnique | src/main/java/seedu/address/model/ModelManager.java:168-184 | the view of a unique list is unique |
| Models.FilterRemove | src/main/java/seedu/address/model/ModelManager.java:123-126 | deleting the t-th displayed person removes exactly that entry of the view |
| Models.ModelManager.constructor | src/main/java/seedu/address/model/ModelManager.java:38-50 | a fresh versioned book of the data, empty input and predicate histories, no predicate; everything displayed |
| Models.ModelManager.GetFilteredPersonList | src/main/java/seedu/address/model/ModelManager.java:168-171 | the persons the current predicate accepts |
| Models.ModelManager.SetAddressBook | src/main/java/seedu/address/model/ModelManager.java:97-99 | only the current data changes |
| Models.ModelManager.HasPerson | src/main/java/seedu/address/model/ModelManager.java:112-116 | true iff some person has the email |
| Models.ModelManager.DeletePerson | src/main/java/seedu/address/model/ModelManager.java:123-126 | an absent person fails; otherwise exactly that entry goes; no commit |
| Models.ModelManager.AddPerson | src/main/java/seedu/address/model/ModelManager.java:133-137 | a duplicate fails; otherwise the person is appended and the view shows everyone |
| Models.ModelManager.SetPerson | src/main/java/seedu/address/model/ModelManager.java:145-150 | as `UniquePersonList.setPerson`; no commit |
| Models.ModelManager.PinPerson | src/main/java/seedu/address/model/ModelManager.java:152-155 | as `UniquePersonList.pinPerson`; no commit |
| Models.ModelManager.UnpinPerson | src/main/java/seedu/address/model/ModelManager.java:157-160 | as `UniquePersonList.unpinPerson`; no commit |
| Models.ModelManager.UpdateFilteredPersonList | src/main/java/seedu/address/model/ModelManager.java:178-184 | the old predicate is pushed on the history and the view is filtered by the new one |
| Models.ModelManager.AddPastCommandInput | src/main/java/seedu/address/model/ModelManager.java:186-189 | the input history becomes `AddedInput` of the old one |
| Models.ModelManager.GetCommandInputHistoryList | src/main/java/seedu/address/model/ModelManager.java:191-194 | the input history, at most 20 entries |
| Models.ModelManager.UpdateSortedPersonList | src/main/java/seedu/address/model/ModelManager.java:205-209 | as `UniquePersonList.sortBy`, with the result reported; no commit |
| Models.ModelManager.UpdateSortedFilteredPersonList | src/main/java/seedu/address/model/ModelManager.java:218-224 | the predicate and the displayed list stay as they were |
| Models.ModelManager.CommitAddressBook | src/main/java/seedu/address/model/ModelManager.java:226-229 | the book state becomes the committed state |
| Models.ModelManager.Undo | src/main/java/seedu/address/model/ModelManager.java:231-234 | as `VersionedAddressBook.undo` |
| Models.ModelManager.Redo | src/main/java/seedu/address/model/ModelManager.java:236-239 | as `VersionedAddressBook.redo` |
| Models.ModelManager.AddressBookHasUndo | src/main/java/seedu/address/model/ModelManager.java:241-244 | true iff undo would succeed |
| Models.ModelManager.AddressBookHasRedo | src/main/java/seedu/address/model/ModelManager.java:246-249 | true iff redo would succeed |
| Indexes.FromOneBased | src/main/java/seedu/address/logic/parser/MassOpsIndexParser.java:124 | `fromOneBased` is the inverse of the one-based form |
| MassOps.MassOpsError.Message | src/main/java/seedu/address/logic/parser/MassOpsIndexParser.java:31-50 | every error text ends with the constraints text |
| MassOps.DashAt | src/main/java/seedu/address/logic/parser/MassOpsIndexParser.java:55-57 | the first dash of the text, if any |
| MassOps.RangeGroups | src/main/java/seedu/address/logic/parser/MassOpsIndexParser.java:55-57 | both groups of a range are non-empty digit runs |
| MassOps.FormsExclusive | src/main/java/seedu/address/logic/parser/MassOpsIndexParser.java:52-57 | no text matches both the spaced and the range pattern |
| MassOps.RangeSet | src/main/java/seedu/address/logic/parser/MassOpsIndexParser.java:120-130 | the indexes whose one-based value lies in start..end |
| MassOps.RangeSetSize | src/main/java/seedu/address/logic/parser/MassOpsIndexParser.java:120-130 | the range start..end has end - start + 1 indexes |
| MassOps.ValidateRangedIndex | src/main/java/seedu/address/logic/parser/MassOpsIndexParser.java:89-98 | passes iff start <= end and the range has at most 100 indexes; otherwise the matching error |
| MassOps.ParseRangedIndexes | src/main/java/seedu/address/logic/parser/MassOpsIndexParser.java:100-133 | the loop collects exactly the range's indexes, or reports the error |
| MassOps.ParseIndexes | src/main/java/seedu/address/logic/parser/MassOpsIndexParser.java:69-87 | the trimmed text is read as spaced or ranged indexes, else an invalid-index error |
| MassOps.WordsAreDigits | src/main/java/seedu/address/logic/parser/MassOpsIndexParser.java:139-140 | the tokens of a spaced match are digit runs |
| MassOps.ParseIndexesBounds | src/main/java/seedu/address/logic/parser/MassOpsIndexParser.java:69-154 | an accepted argument names 1 to 100 indexes, each a positive int |
| MassOps.SpacedBounds | src/main/java/seedu/address/logic/parser/MassOpsIndexParser.java:134-154 | an accepted spaced list names 1 to 100 indexes, each a positive int |
| MassOps.RangedBounds | src/main/java/seedu/address/logic/parser/MassOpsIndexParser.java:89-133 | an accepted range names 1 to 100 indexes, each a positive int |
| MassOps.RangeNamesItsPositions | src/main/java/seedu/address/logic/parser/MassOpsIndexParser.java:100-133 | an accepted range names exactly the positions start..end |
| Commands.WithPin | src/main/java/seedu/address/logic/commands/UnpinCommand.java:63-67 | the copy differs only in the pin and is the same person |
| Commands.WithNote | src/main/java/seedu/address/logic/commands/NoteCommand.java:60-64 | the copy differs only in the note and is the same person |
| Commands.ReplaceBySamePerson | src/main/java/seedu/address/model/person/UniquePersonList.java:58-71 | replacing an entry by the same person keeps the list unique and swaps exactly that person |
| DeleteCommands.SingleDelete | src/main/java/seedu/address/logic/commands/DeleteCommand.java:57-59 | one target index |
| DeleteCommands.HighestFirst | src/main/java/seedu/address/logic/commands/DeleteCommand.java:66-71 | the indexes of the set, each once, from highest to lowest |
| DeleteCommands.MultipleDelete | src/main/java/seedu/address/logic/commands/DeleteCommand.java:66-71 | the command's indexes are the set's, highest first; non-empty iff the set is |
| DeleteCommands.Picked | src/main/java/seedu/address/logic/commands/DeleteCommand.java:84-89 | after n rounds, the k-th deleted person is the one shown at the k-th target index |
| DeleteCommands.RemainingAfter | src/main/java/seedu/address/logic/commands/DeleteCommand.java:84-89 | one entry fewer per round |
| DeleteCommands.RemainingKeepsBelow | src/main/java/seedu/address/logic/commands/DeleteCommand.java:84-89 | entries below every target keep their positions |
| DeleteCommands.RemainingPlusPicked | src/main/java/seedu/address/logic/commands/DeleteCommand.java:84-89 | the kept and the deleted persons together are the shown list |
| DeleteCommands.DeletesExactlyTargets | src/main/java/seedu/address/logic/commands/DeleteCommand.java:84-89 | a shown person is kept iff it is not one of the targets |
| DeleteCommands.Reverse | src/main/java/seedu/address/logic/commands/DeleteCommand.java:91 | `Collections.reverse` |
| DeleteCommands.DeleteShown | src/main/java/seedu/address/logic/commands/DeleteCommand.java:85-87 | deleting the t-th shown person removes exactly that entry of the view |
| DeleteCommands.DeleteNext | src/main/java/seedu/address/logic/commands/DeleteCommand.java:85-88 | one round deletes the person shown at the next target and records it, keeping the loop state |
| DeleteCommands.DeleteAll | src/main/java/seedu/address/logic/commands/DeleteCommand.java:84-89 | the loop deletes the targets, highest first, and returns them in that order |
| DeleteCommands.Execute | src/main/java/seedu/address/logic/commands/DeleteCommand.java:73-93 | the highest index beyond the view fails and changes nothing; otherwise every target is deleted, the deleted persons are returned lowest index first, and nothing is committed |
| UnpinCommands.UnpinSuccess | src/main/java/seedu/address/logic/commands/UnpinCommand.java:30 | "Unpinned " followed by the one-based index |
| UnpinCommands.AfterUnpinSpec | src/main/java/seedu/address/logic/commands/UnpinCommand.java:54-73 | the list stays unique, the person is swapped for its unpinned copy, and pinned persons come first |
| UnpinCommands.Execute | src/main/java/seedu/address/logic/commands/UnpinCommand.java:54-73 | an index beyond the view fails and changes nothing; otherwise the shown person is unpinned and the list re-partitioned |
| NoteCommands.AfterNoteSpec | src/main/java/seedu/address/logic/commands/NoteCommand.java:51-70 | the list stays unique and the same length; only the target's note changes |
| NoteCommands.Execute | src/main/java/seedu/address/logic/commands/NoteCommand.java:51-70 | an index beyond the view fails and changes nothing; otherwise the note is set and everyone is shown |
| SortCommands.NewSortCommand | src/main/java/seedu/address/logic/commands/SortCommand.java:38-43 | no prefixes is an illegal argument; otherwise the prefixes are kept |
| SortCommands.Execute | src/main/java/seedu/address/logic/commands/SortCommand.java:52-63 | the book is sorted then prioritised and committed, reporting success; a bad prefix list fails and changes nothing |
| SortCommands.ExecuteSortsBook | src/main/java/seedu/address/logic/commands/SortCommand.java:52-63 | the sorted book has the same persons, pinned first, each part in order |
| SortCommands.ParseSort | src/main/java/seedu/address/logic/parser/SortCommandParser.java:11-25 | exactly "n/", "p/", "e/", "a/" after trimming give a command; anything else is "Unable to sort." |
| SortCommands.ParsedSortSucceeds | src/main/java/seedu/address/logic/parser/SortCommandParser.java:11-25 | every parsed sort command executes without a prefix error |
| SortCommands.ParseSortIgnoresPadding | src/main/java/seedu/address/logic/parser/SortCommandParser.java:11-12 | blanks around the arguments never change the parse |
| SortCommands.ParseSortOfPrefix | src/main/java/seedu/address/logic/parser/SortCommandParser.java:11-25 | each accepted prefix parses to the command holding it |
| FindCommands.PersonsListed | src/main/java/seedu/address/logic/Messages.java:21 | the count's digits followed by " persons listed!" |
| FindCommands.Execute | src/main/java/seedu/address/logic/commands/FindCommand.java:33-40 | the view is filtered by the predicate and its size reported; the book is unchanged |
| FindCommands.FindNothing | src/main/java/seedu/address/model/person/PersonContainsKeywordsPredicate.java:41-51 | a search with no keywords or no fields shows nobody |
| FindCommandParsers.NextQuote | src/main/java/seedu/address/logic/parser/FindCommandParser.java:25 | the first quote from a position |
| FindCommandParsers.FindQuoted | src/main/java/seedu/address/logic/parser/FindCommandParser.java:25 | `matcher.find()`: a quoted run of at least one non-quote character |
| FindCommandParsers.QuotedKeywordsWellFormed | src/main/java/seedu/address/logic/parser/FindCommandParser.java:74-83 | every extracted keyword is non-empty, quote-free and appears quoted in the input |
| FindCommandParsers.NoQuoteNoKeywords | src/main/java/seedu/address/logic/parser/FindCommandParser.java:74-83 | an input without quotes gives no keywords |
| FindCommandParsers.QuotedKeywordRoundTrip | src/main/java/seedu/address/logic/parser/FindCommandParser.java:74-83 | any number of non-empty, quote-free keywords, each put between quotes and separated by any quote-free text, are extracted back in order |
| FindCommandParsers.ExtractKeywords | src/main/java/seedu/address/logic/parser/FindCommandParser.java:74-83 | the loop appends exactly the quoted keywords of a present, non-empty value |
| FindCommandParsers.Parse | src/main/java/seedu/address/logic/parser/FindCommandParser.java:32-68 | the parse gives exactly the specified command or the invalid-format error |
| FindCommandParsers.FindSpecFlags | src/main/java/seedu/address/logic/parser/FindCommandParser.java:36-58 | each field is searched iff its prefix is present; name when none is; keywords are non-empty |
| FindCommandParsers.FindKeywordsQuoted | src/main/java/seedu/address/logic/parser/FindCommandParser.java:44-48 | with a prefix, every keyword is quoted in some prefix's value |
| FindCommandParsers.FindByPreamble | src/main/java/seedu/address/logic/parser/FindCommandParser.java:51-64 | without a prefix, the parse succeeds iff the preamble is not blank, and the keywords are its words |
| FindCommandParsers.PreambleKeywords | src/main/java/seedu/address/logic/parser/FindCommandParser.java:52-57 | with no prefix, the keywords are empty iff the trimmed preamble is, and are otherwise its words |
| UndoCommands.Execute | src/main/java/seedu/address/logic/commands/UndoCommand.java:16-27 | nothing to undo fails with the message and no change; otherwise the book is undone and redo becomes possible |
| RedoCommands.Execute | src/main/java/seedu/address/logic/commands/RedoCommand.java:14-25 | nothing to redo fails with the message and no change; otherwise the book is redone and undo becomes possible |
| HelpCommands.CommandHelpKeys | src/main/java/seedu/address/logic/commands/HelpCommand.java:28-77 | the help table has exactly the thirteen command words |
| HelpCommands.NamedHelp | src/main/java/seedu/address/logic/commands/HelpCommand.java:93-95 | the command name is stored lower-cased |
| HelpCommands.Execute | src/main/java/seedu/address/logic/commands/HelpCommand.java:110-121 | no name opens the help window; a known name gives its usage; an unknown one gives the not-found text; never exits |
| HelpCommands.ToLowerIdempotent | src/main/java/seedu/address/logic/commands/HelpCommand.java:94 | lower-casing twice is lower-casing once |
| HelpCommands.HelpIgnoresCase | src/main/java/seedu/address/logic/commands/HelpCommand.java:93-121 | help for a name is help for its lower-case form |
| HelpCommands.HelpFindsEveryCommand | src/main/java/seedu/address/logic/commands/HelpCommand.java:28-121 | every command word, in any case, gets its own usage text |
| HelpCommandParsers.ParseHelp | src/main/java/seedu/address/logic/parser/HelpCommandParser.java:11-18 | blank arguments give general help; otherwise help for the trimmed name |
| HelpCommandParsers.ParseHelpGeneral | src/main/java/seedu/address/logic/parser/HelpCommandParser.java:11-18 | general help iff the arguments are all trimmable |
| HelpCommandParsers.ParseHelpIgnoresPadding | src/main/java/seedu/address/logic/parser/HelpCommandParser.java:11-18 | surrounding padding does not change the parsed command |

## Left out

- User interface, JavaFX observable lists and listeners, logging, `UserPrefs`, `ModelState`, `toString` and `hashCode`: they are display or infrastructure, not behaviour of the list or the commands.
- `Messages.format` is left out. `DeleteCommands.Execute` returns the deleted persons and `NoteCommands.Execute` returns the edited person, instead of the formatted success text.
- `System.lineSeparator()` is taken to be "\n".
- `ParserUtil.parseIndexes` is not part of this model. Spaced indexes are read as each token a positive `int` with duplicates collapsing, as its callers and tests expect.
- `ArgumentTokenizer` is not part of this model. The find parser starts from its result, a preamble and a map from prefix to value.
- The delete and note argument parsers, and the pin, view-note, add, edit, list and exit commands, are not part of this model. `ModelManager.pinPerson` is modelled.
- `StringUtil.containsPhraseIgnoreCase`, `StringUtil.isSimilar` and the string form of a tag set are parameters: the model proves properties that hold whatever they compute.
- `ModelManager.predicateHistory` is recorded but never read by the modelled code.
- `ModelManager.updateSortedFilteredPersonList` passes a `String[]` to a method that takes one prefix. The model follows what the sort does to the displayed list, which is nothing lasting.
- Text.ToLower: only ASCII letters are lower-cased; Java's locale-aware, full Unicode case mapping is not modelled.
- Text.StrLeqTotal: strings are compared by code point, not by `compareTo`'s UTF-16 units; the two orders differ only when a character at or above U+10000 meets one in U+E000 to U+FFFF at the same position.
- HelpCommands.CommandHelpKeys: the table's texts are copied exactly, but the property that each usage text begins with its command word is not proved.
- The validation rules of names, emails, addresses and tags are not modelled; a phone is a non-empty digit string.
- PersonOrder.Sort: `List.sort` is modelled as an insertion sort that places each element after the equal ones before it; that equal elements keep their input order is not stated as a lemma, only that an ordered list is left as it is. The comparator's `BigInteger` phone order is the digits' numeric value.
- Aliasing of the first snapshot: the `VersionedAddressBook` constructor stores the caller's `toBeCopied` object itself as state 0, so in Java a later change to that object would show on undo back to state 0. The model stores the value, and no modelled caller changes that object.
- Undo and redo of `ModelManager` beyond one book: `ModelState` and the predicate history are not restored on undo.
- Integer widths: indexes are unbounded naturals; the mass-ops parser bounds one-based values by 2147483647 as `Integer.parseInt` does, and no other 32-bit wrap-around arises in the modelled code.
