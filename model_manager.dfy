/**
 * ModelManager: the in-memory model. It owns the versioned address book, the
 * input history and the filtered view of the persons that the commands index
 * into.
 */
module Models {
  import opened Results
  import opened Persons
  import KP = KeywordsPredicates
  import opened PersonOrder
  import opened UniquePersons
  import opened Versioned
  import opened InputHistories

  /**
   * The predicate of the filtered list. Unset is Java's null (the list shows
   * everyone); ShowAll is PREDICATE_SHOW_ALL_PERSONS; Keywords is a find.
   */
  datatype PersonFilter = Unset | ShowAll | Keywords(keywords: KP.KeywordsPredicate)

  predicate Shows(f: PersonFilter, m: KP.Matchers, p: Person) {
    match f
    case Unset => true
    case ShowAll => true
    case Keywords(k) => KP.Test(k, m, p)
  }

  /** FilteredList: the persons of s that the predicate accepts, in their order in s. */
  function Filter(s: seq<Person>, f: PersonFilter, m: KP.Matchers): (r: seq<Person>)
    ensures forall x :: x in r <==> x in s && Shows(f, m, x)
    ensures |r| <= |s|
  {
    if s == [] then []
    else Filter(s[..|s| - 1], f, m) + (if Shows(f, m, s[|s| - 1]) then [s[|s| - 1]] else [])
  }

  lemma {:induction false} FilterAppend(a: seq<Person>, b: seq<Person>, f: PersonFilter, m: KP.Matchers)
    ensures Filter(a + b, f, m) == Filter(a, f, m) + Filter(b, f, m)
    decreases |b|
  {
    if b == [] {
      assert a + b == a;
    } else {
      FilterAppend(a, b[..|b| - 1], f, m);
      InitOfAppend(a, b);
    }
  }

  /** A filter that accepts everyone shows the whole list. */
  lemma {:induction false} FilterAll(s: seq<Person>, f: PersonFilter, m: KP.Matchers)
    requires f.Unset? || f.ShowAll?
    ensures Filter(s, f, m) == s
  {
    if s != [] {
      var init := s[..|s| - 1];
      FilterAll(init, f, m);
      assert Filter(s, f, m) == init + [s[|s| - 1]];
      LastSplit(s);
    }
  }

  /** The view of a unique list is unique. */
  lemma {:induction false} FilterUnique(s: seq<Person>, f: PersonFilter, m: KP.Matchers)
    requires Unique(s)
    ensures Unique(Filter(s, f, m))
  {
    if s != [] {
      var init := s[..|s| - 1];
      FilterUnique(init, f, m);
      var r := Filter(s, f, m);
      var fi := Filter(init, f, m);
      forall i, j | 0 <= i < j < |r|
        ensures !IsSamePerson(r[i], Some(r[j]))
      {
        if j >= |fi| {
          assert r[j] == s[|s| - 1];
          assert r[i] in init;
          var k :| 0 <= k < |init| && init[k] == r[i];
          assert s[k] == r[i];
        }
      }
    }
  }

  /** The view of a list with one shown person in the middle. */
  lemma FilterAround(a: seq<Person>, p: Person, b: seq<Person>, f: PersonFilter, m: KP.Matchers)
    requires Shows(f, m, p)
    ensures Filter(a + [p] + b, f, m) == Filter(a, f, m) + [p] + Filter(b, f, m)
  {
    FilterAppend(a + [p], b, f, m);
    FilterAppend(a, [p], f, m);
    assert [p][..0] == [];
  }

  /** An element found in neither part around a position can only be at that position. */
  lemma OnlyPosition(fa: seq<Person>, p: Person, fb: seq<Person>, t: nat)
    requires t < |fa + [p] + fb| && (fa + [p] + fb)[t] == p
    requires p !in fa && p !in fb
    ensures t == |fa|
  {
    var v := fa + [p] + fb;
    assert forall i :: 0 <= i < |fa| ==> v[i] == fa[i];
    assert forall i :: |fa| < i < |v| ==> v[i] == fb[i - |fa| - 1];
  }

  /** In a unique list an entry does not occur again after its position. */
  lemma NotLater(s: seq<Person>, k: nat)
    requires Unique(s) && k < |s|
    ensures s[k] !in s[k + 1..]
  {
    var rest := s[k + 1..];
    forall j | 0 <= j < |rest|
      ensures rest[j] != s[k]
    {
      assert rest[j] == s[k + 1 + j];
      assert !IsSamePerson(s[k], Some(s[k + 1 + j]));
    }
  }

  /** Removing a shown entry that occurs nowhere else removes its position in the view. */
  lemma FilterRemoveAt(s: seq<Person>, f: PersonFilter, m: KP.Matchers, k: nat)
    requires k < |s| && Shows(f, m, s[k])
    requires s[k] !in s[..k] && s[k] !in s[k + 1..]
    ensures var view := Filter(s, f, m);
      && view == Filter(s[..k], f, m) + [s[k]] + Filter(s[k + 1..], f, m)
      && Filter(RemoveAt(s, k), f, m) == Filter(s[..k], f, m) + Filter(s[k + 1..], f, m)
      && s[k] !in Filter(s[..k], f, m) && s[k] !in Filter(s[k + 1..], f, m)
  {
    var a, b := s[..k], s[k + 1..];
    assert s == a + [s[k]] + b;
    FilterAround(a, s[k], b, f, m);
    FilterAppend(a, b, f, m);
  }

  /**
   * Deleting the person shown at position t removes exactly that position
   * from the view: the persons shown before it keep their positions.
   */
  lemma FilterRemove(s: seq<Person>, f: PersonFilter, m: KP.Matchers, t: nat)
    requires Unique(s) && t < |Filter(s, f, m)|
    ensures Filter(s, f, m)[t] in s
    ensures Filter(RemoveAt(s, IndexOf(s, Filter(s, f, m)[t])), f, m) == RemoveAt(Filter(s, f, m), t)
  {
    var view := Filter(s, f, m);
    var p := view[t];
    assert p in view;
    var k := IndexOf(s, p);
    NotLater(s, k);
    FilterRemoveAt(s, f, m, k);
    RemoveMiddle(Filter(s[..k], f, m), p, Filter(s[k + 1..], f, m), t);
  }

  /** Removing the one position that holds p from fa + [p] + fb leaves fa + fb. */
  lemma RemoveMiddle(fa: seq<Person>, p: Person, fb: seq<Person>, t: nat)
    requires t < |fa + [p] + fb| && (fa + [p] + fb)[t] == p
    requires p !in fa && p !in fb
    ensures RemoveAt(fa + [p] + fb, t) == fa + fb
  {
    OnlyPosition(fa, p, fb, t);
    var v := fa + [p] + fb;
    assert v[..t] == fa;
    assert v[t + 1..] == fb;
  }

  class ModelManager {
    /** The versioned address book. */
    const book: VersionedAddressBook
    /** The input history. */
    const pastCommands: InputHistory
    /** StringUtil's matchers, used by find predicates. */
    const matchers: KP.Matchers
    /** HashSet<Tag>.toString, used by the tag orders. */
    const render: TagRenderer
    /** currentPredicate */
    var currentPredicate: PersonFilter
    /** The predicate of filteredPersons, set by FilteredList.setPredicate apart from currentPredicate. */
    var filterPredicate: PersonFilter
    /** predicateHistory: every predicate replaced so far. */
    var predicateHistory: seq<PersonFilter>

    /** The filtered list always holds the current predicate. */
    ghost predicate Valid()
      reads this, book, book.persons, pastCommands
    {
      && book.Valid()
      && pastCommands.Valid()
      && filterPredicate == currentPredicate
    }

    /** The constructor: a fresh versioned book holding initial, an empty input history, no predicate. */
    constructor(initial: seq<Person>, matchers: KP.Matchers, render: TagRenderer)
      requires Unique(initial)
      ensures Valid() && fresh(book) && fresh(book.persons) && fresh(pastCommands)
      ensures book.State() == InitState(initial) && pastCommands.pastCommands == []
      ensures currentPredicate == Unset && predicateHistory == []
      ensures this.matchers == matchers && this.render == render
      ensures GetFilteredPersonList() == initial
    {
      book := new VersionedAddressBook(initial);
      pastCommands := new InputHistory();
      this.matchers := matchers;
      this.render := render;
      currentPredicate := Unset;
      filterPredicate := Unset;
      predicateHistory := [];
      new;
      FilterAll(initial, Unset, matchers);
    }

    /** The live list of persons. */
    function Persons(): seq<Person>
      reads this, book, book.persons
    {
      book.persons.list
    }

    /** getFilteredPersonList: the persons of the book that the installed predicate accepts. */
    function GetFilteredPersonList(): (r: seq<Person>)
      reads this, book, book.persons
      ensures forall x :: x in r <==> x in Persons() && Shows(filterPredicate, matchers, x)
    {
      Filter(book.persons.list, filterPredicate, matchers)
    }

    /** setAddressBook: replaces the persons without saving a state. */
    method SetAddressBook(newData: seq<Person>)
      requires Valid() && Unique(newData)
      modifies book.persons
      ensures Valid()
      ensures book.State() == old(book.State()).(data := newData)
    {
      book.ResetData(newData);
    }

    /** hasPerson: whether the book holds the same person. */
    function HasPerson(person: Person): (b: bool)
      reads this, book, book.persons
      ensures b <==> exists i :: 0 <= i < |book.persons.list| && book.persons.list[i].email == person.email
    {
      book.persons.Contains(person)
    }

    /** deletePerson */
    method DeletePerson(target: Person) returns (r: Outcome<ModelError>)
      requires Valid()
      modifies book.persons
      ensures Valid()
      ensures r == if target in old(Persons()) then Pass else Fail(PersonNotFound)
      ensures r.Pass? ==> Persons() == RemoveAt(old(Persons()), IndexOf(old(Persons()), target))
      ensures r.Fail? ==> Persons() == old(Persons())
      ensures multiset(Persons()) == multiset(old(Persons())) - multiset{target}
      ensures book.history == old(book.history) && book.pointer == old(book.pointer)
    {
      r := book.persons.Remove(target);
    }

    /** addPerson: adds the person and then shows everyone; a duplicate changes nothing. */
    method AddPerson(person: Person) returns (r: Outcome<ModelError>)
      requires Valid()
      modifies this, book.persons
      ensures Valid()
      ensures r == if old(HasPerson(person)) then Fail(DuplicatePerson) else Pass
      ensures r.Pass? ==> Persons() == old(Persons()) + [person]
      ensures r.Pass? ==> currentPredicate == ShowAll && predicateHistory == old(predicateHistory) + [old(currentPredicate)]
      ensures r.Pass? ==> GetFilteredPersonList() == Persons()
      ensures r.Fail? ==> Persons() == old(Persons()) && currentPredicate == old(currentPredicate)
      ensures r.Fail? ==> predicateHistory == old(predicateHistory)
      ensures book.history == old(book.history) && book.pointer == old(book.pointer)
    {
      r := book.persons.Add(person);
      if r.Pass? {
        UpdateFilteredPersonList(ShowAll);
        FilterAll(Persons(), ShowAll, matchers);
      }
    }

    /** setPerson */
    method SetPerson(target: Person, editedPerson: Person) returns (r: Outcome<ModelError>)
      requires Valid()
      modifies book.persons
      ensures Valid()
      ensures r == (
        if target !in old(Persons()) then Fail(PersonNotFound)
        else if !IsSamePerson(target, Some(editedPerson)) && old(HasPerson(editedPerson)) then Fail(DuplicatePerson)
        else Pass)
      ensures Persons() == if r.Pass? then old(Persons())[IndexOf(old(Persons()), target) := editedPerson] else old(Persons())
      ensures book.history == old(book.history) && book.pointer == old(book.pointer)
    {
      r := book.persons.SetPerson(target, editedPerson);
    }

    /** pinPerson */
    method PinPerson(person: Person) returns (r: Outcome<ModelError>)
      requires Valid()
      modifies book.persons
      ensures Valid()
      ensures r == if person in old(Persons()) then Pass else Fail(PersonNotFound)
      ensures Persons() == if r.Pass? then [person] + RemoveAt(old(Persons()), IndexOf(old(Persons()), person)) else old(Persons())
      ensures book.history == old(book.history) && book.pointer == old(book.pointer)
    {
      r := book.persons.PinPerson(person);
    }

    /** unpinPerson */
    method UnpinPerson(person: Person) returns (r: Outcome<ModelError>)
      requires Valid()
      modifies book.persons
      ensures Valid()
      ensures r == if person in old(Persons()) then Pass else Fail(PersonNotFound)
      ensures Persons() == if r.Pass? then Prioritised(old(Persons())) else old(Persons())
      ensures book.history == old(book.history) && book.pointer == old(book.pointer)
    {
      r := book.persons.UnpinPerson(person);
    }

    /** updateFilteredPersonList: remembers the old predicate and installs the new one. */
    method UpdateFilteredPersonList(filter: PersonFilter)
      requires Valid()
      modifies this
      ensures Valid()
      ensures currentPredicate == filter
      ensures predicateHistory == old(predicateHistory) + [old(currentPredicate)]
      ensures GetFilteredPersonList() == Filter(Persons(), filter, matchers)
    {
      predicateHistory := predicateHistory + [currentPredicate];
      currentPredicate := filter;
      filterPredicate := filter;
    }

    /** addPastCommandInput */
    method AddPastCommandInput(rawCommandInput: string)
      requires Valid()
      modifies pastCommands
      ensures Valid()
      ensures pastCommands.pastCommands == AddedInput(old(pastCommands.pastCommands), rawCommandInput)
    {
      pastCommands.AddInput(rawCommandInput);
    }

    /** getCommandInputHistoryList */
    function GetCommandInputHistoryList(): (r: seq<string>)
      reads this, pastCommands
      requires pastCommands.Valid()
      ensures |r| <= MaxHistorySize && r == pastCommands.pastCommands
    {
      pastCommands.GetPastCommands()
    }

    /** updateSortedPersonList: sorts the book's list (pinned persons first) by the given prefixes. */
    method UpdateSortedPersonList(prefixes: seq<string>) returns (r: Outcome<ModelError>)
      requires Valid()
      modifies book.persons
      ensures Valid()
      ensures r == if ParseSortOrder(prefixes).Ok? then Pass else Fail(ParseSortOrder(prefixes).error)
      ensures Persons() == if r.Pass? then SortedAndPrioritised(ParseSortOrder(prefixes).value, render, old(Persons())) else old(Persons())
      ensures book.history == old(book.history) && book.pointer == old(book.pointer)
    {
      r := book.persons.SortBy(prefixes, render);
    }

    /**
     * updateSortedFilteredPersonList: re-installs the current predicate on the
     * filtered list. The sorted FilteredPersonList it builds is a local that is
     * dropped, so what is shown does not change.
     */
    method UpdateSortedFilteredPersonList(prefixes: seq<string>)
      requires Valid()
      modifies this
      ensures Valid()
      ensures filterPredicate == currentPredicate == old(currentPredicate)
      ensures predicateHistory == old(predicateHistory)
      ensures GetFilteredPersonList() == old(GetFilteredPersonList())
    {
      filterPredicate := currentPredicate;
    }

    /** commitAddressBook */
    method CommitAddressBook()
      requires Valid()
      modifies book
      ensures Valid()
      ensures book.State() == Committed(old(book.State()))
    {
      book.Commit();
    }

    /** undo */
    method Undo() returns (r: Outcome<ModelError>)
      requires Valid()
      modifies book, book.persons
      ensures Valid()
      ensures r == if Undone(old(book.State())).Ok? then Pass else Fail(IndexOutOfBounds)
      ensures book.State() == if r.Pass? then Undone(old(book.State())).value else old(book.State())
    {
      r := book.Undo();
    }

    /** redo */
    method Redo() returns (r: Outcome<ModelError>)
      requires Valid()
      modifies book, book.persons
      ensures Valid()
      ensures r == if Redone(old(book.State())).Ok? then Pass else Fail(IndexOutOfBounds)
      ensures book.State() == if r.Pass? then Redone(old(book.State())).value else old(book.State())
    {
      r := book.Redo();
    }

    /** addressBookHasUndo */
    function AddressBookHasUndo(): (b: bool)
      reads this, book, book.persons
      requires book.Valid()
      ensures b <==> Undone(book.State()).Ok?
    {
      book.HasUndo()
    }

    /** addressBookHasRedo */
    function AddressBookHasRedo(): (b: bool)
      reads this, book, book.persons
      requires book.Valid()
      ensures b <==> Redone(book.State()).Ok?
    {
      book.HasRedo()
    }
  }
}
