/**
 * VersionedAddressBook: an address book that keeps a list of saved states and
 * a pointer to the current one, for undo and redo.
 *
 * The pure state machine (VersionState with Committed, Undone, Redone) is the
 * specification; the class below is proved to follow it step by step.
 */
module Versioned {
  import opened Results
  import opened Persons
  import opened UniquePersons

  /**
   * The abstract state: the live person list, the saved states
   * (addressBookStateList) and currentStatePointer.
   */
  datatype VersionState = VersionState(data: seq<Person>, history: seq<seq<Person>>, pointer: int)
  {
    predicate WellFormed() {
      0 <= pointer < |history|
    }

    /** hasUndo */
    predicate HasUndo() {
      pointer - 1 >= 0
    }

    /** hasRedo */
    predicate HasRedo() {
      pointer + 1 < |history|
    }

    /** The live list is the saved state the pointer designates (no uncommitted change). */
    predicate Synced() {
      WellFormed() && data == history[pointer]
    }
  }

  /** The constructor: the initial book is the only saved state. */
  function InitState(initial: seq<Person>): (s: VersionState)
    ensures s.Synced() && s.data == initial
    ensures !s.HasUndo() && !s.HasRedo()
  {
    VersionState(initial, [initial], 0)
  }

  /** commit: drop every state ahead of the pointer, then save the live list as the new current state. */
  function Committed(s: VersionState): (t: VersionState)
    requires s.WellFormed()
    ensures t.Synced() && t.data == s.data
    ensures t.HasUndo() && !t.HasRedo()
    ensures t.pointer == s.pointer + 1
    ensures t.history[..s.pointer + 1] == s.history[..s.pointer + 1]
  {
    VersionState(s.data, s.history[..s.pointer + 1] + [s.data], s.pointer + 1)
  }

  /** undo: step the pointer back and restore that saved state; fails when there is none. */
  function Undone(s: VersionState): (r: Result<VersionState, ModelError>)
    requires s.WellFormed()
    ensures r.Ok? <==> s.HasUndo()
    ensures r.Err? ==> r.error == IndexOutOfBounds
    ensures r.Ok? ==> r.value.Synced() && r.value.HasRedo()
    ensures r.Ok? ==> r.value.history == s.history && r.value.pointer == s.pointer - 1
  {
    if s.pointer - 1 < 0 then Err(IndexOutOfBounds)
    else Ok(VersionState(s.history[s.pointer - 1], s.history, s.pointer - 1))
  }

  /** redo: step the pointer forward and restore that saved state; fails when there is none. */
  function Redone(s: VersionState): (r: Result<VersionState, ModelError>)
    requires s.WellFormed()
    ensures r.Ok? <==> s.HasRedo()
    ensures r.Err? ==> r.error == IndexOutOfBounds
    ensures r.Ok? ==> r.value.Synced() && r.value.HasUndo()
    ensures r.Ok? ==> r.value.history == s.history && r.value.pointer == s.pointer + 1
  {
    if s.pointer + 1 >= |s.history| then Err(IndexOutOfBounds)
    else Ok(VersionState(s.history[s.pointer + 1], s.history, s.pointer + 1))
  }

  /** Undoing then redoing returns to a synced state unchanged. */
  lemma UndoThenRedo(s: VersionState)
    requires s.Synced() && s.HasUndo()
    ensures Undone(s).Ok? && Redone(Undone(s).value) == Ok(s)
  {
  }

  /** Redoing then undoing returns to a synced state unchanged. */
  lemma RedoThenUndo(s: VersionState)
    requires s.Synced() && s.HasRedo()
    ensures Redone(s).Ok? && Undone(Redone(s).value) == Ok(s)
  {
  }

  /**
   * Undo right after a commit restores the state saved before it (which
   * differs from the live list when changes were made without a commit), and
   * a redo then brings back the committed list.
   */
  lemma CommitThenUndo(s: VersionState)
    requires s.WellFormed()
    ensures Undone(Committed(s)).Ok?
    ensures Undone(Committed(s)).value.data == s.history[s.pointer]
    ensures Redone(Undone(Committed(s)).value) == Ok(Committed(s))
  {
    UndoThenRedo(Committed(s));
  }

  /** A commit after an undo discards the undone state: nothing is left to redo. */
  lemma CommitDiscardsRedo(s: VersionState)
    requires s.WellFormed() && s.HasRedo()
    ensures !Committed(s).HasRedo()
    ensures |Committed(s).history| <= |s.history|
  {
  }

  /** n successive undos. */
  function UndoTimes(s: VersionState, n: nat): (t: VersionState)
    requires s.WellFormed() && n <= s.pointer
    ensures t.WellFormed() && t.history == s.history && t.pointer == s.pointer - n
    decreases n
  {
    if n == 0 then s else UndoTimes(Undone(s).value, n - 1)
  }

  /** n successive redos. */
  function RedoTimes(s: VersionState, n: nat): (t: VersionState)
    requires s.WellFormed() && s.pointer + n < |s.history|
    ensures t.WellFormed() && t.history == s.history && t.pointer == s.pointer + n
    decreases n
  {
    if n == 0 then s else RedoTimes(Redone(s).value, n - 1)
  }

  /** After n > 0 undos the live list is the saved state n steps back. */
  lemma {:induction false} UndoTimesRestores(s: VersionState, n: nat)
    requires s.WellFormed() && 0 < n <= s.pointer
    ensures UndoTimes(s, n).data == s.history[s.pointer - n]
    decreases n
  {
    if n > 1 {
      UndoTimesRestores(Undone(s).value, n - 1);
    }
  }

  /** After n > 0 redos the live list is the saved state n steps ahead. */
  lemma {:induction false} RedoTimesRestores(s: VersionState, n: nat)
    requires s.WellFormed() && 0 < n && s.pointer + n < |s.history|
    ensures RedoTimes(s, n).data == s.history[s.pointer + n]
    decreases n
  {
    if n > 1 {
      RedoTimesRestores(Redone(s).value, n - 1);
    }
  }

  /** Undoing n times and then redoing n times gives back a synced state. */
  lemma UndoRedoTimes(s: VersionState, n: nat)
    requires s.Synced() && n <= s.pointer
    ensures RedoTimes(UndoTimes(s, n), n) == s
  {
    if n > 0 {
      UndoTimesRestores(s, n);
      RedoTimesRestores(UndoTimes(s, n), n);
    }
  }

  // ---------------------------------------------------------------------------
  // The class

  class VersionedAddressBook {
    /** The AddressBook part: its person list. */
    const persons: UniquePersonList
    /** addressBookStateList: saved person lists. */
    var history: seq<seq<Person>>
    /** currentStatePointer */
    var pointer: int

    ghost predicate Valid()
      reads this, persons
    {
      && persons.Valid()
      && 0 <= pointer < |history|
      && forall i :: 0 <= i < |history| ==> Unique(history[i])
    }

    function State(): VersionState
      reads this, persons
    {
      VersionState(persons.list, history, pointer)
    }

    /** The constructor: the book starts as a copy of initial, its only saved state. */
    constructor(initial: seq<Person>)
      requires Unique(initial)
      ensures Valid() && fresh(persons)
      ensures State() == InitState(initial)
    {
      var book := new UniquePersonList();
      var _ := book.SetPersons(initial);
      persons := book;
      history := [initial];
      pointer := 0;
    }

    /** resetData (inherited from AddressBook): replaces the live list without saving a state. */
    method ResetData(newData: seq<Person>)
      requires Valid() && Unique(newData)
      modifies persons
      ensures Valid()
      ensures State() == old(State()).(data := newData)
    {
      var _ := persons.SetPersons(newData);
    }

    /** commit */
    method Commit()
      requires Valid()
      modifies this
      ensures Valid()
      ensures State() == Committed(old(State()))
    {
      RemoveAheadCurrent();
      history := history + [persons.list];
      pointer := pointer + 1;
    }

    /** removeAheadCurrent: removes, one at a time, every saved state after the pointer. */
    method RemoveAheadCurrent()
      requires Valid()
      modifies this
      ensures Valid()
      ensures pointer == old(pointer) && history == old(history)[..pointer + 1]
    {
      var curSize := |history|;
      for i := pointer + 1 to curSize
        invariant Valid() && pointer == old(pointer)
        invariant history == old(history)[..pointer + 1] + old(history)[i..]
      {
        history := history[..pointer + 1] + history[pointer + 2..];
      }
      assert old(history)[curSize..] == [];
    }

    /** undo */
    method Undo() returns (r: Outcome<ModelError>)
      requires Valid()
      modifies this, persons
      ensures Valid()
      ensures r == if Undone(old(State())).Ok? then Pass else Fail(IndexOutOfBounds)
      ensures State() == if r.Pass? then Undone(old(State())).value else old(State())
    {
      if pointer - 1 < 0 {
        return Fail(IndexOutOfBounds);
      }
      pointer := pointer - 1;
      var _ := persons.SetPersons(history[pointer]);
      r := Pass;
    }

    /** redo */
    method Redo() returns (r: Outcome<ModelError>)
      requires Valid()
      modifies this, persons
      ensures Valid()
      ensures r == if Redone(old(State())).Ok? then Pass else Fail(IndexOutOfBounds)
      ensures State() == if r.Pass? then Redone(old(State())).value else old(State())
    {
      if pointer + 1 >= |history| {
        return Fail(IndexOutOfBounds);
      }
      pointer := pointer + 1;
      var _ := persons.SetPersons(history[pointer]);
      r := Pass;
    }

    /** hasUndo: exactly when an undo would succeed. */
    function HasUndo(): (b: bool)
      reads this, persons
      requires Valid()
      ensures b <==> Undone(State()).Ok?
    {
      pointer - 1 >= 0
    }

    /**
     * equals: the same object, or equal live lists (the inherited AddressBook
     * comparison), pointers and saved states.
     */
    function Equals(other: VersionedAddressBook): (b: bool)
      reads this, persons, other, other.persons
      ensures b <==> State() == other.State()
    {
      other == this
      || (persons.list == other.persons.list && pointer == other.pointer && history == other.history)
    }

    /** hasRedo: exactly when a redo would succeed. */
    function HasRedo(): (b: bool)
      reads this, persons
      requires Valid()
      ensures b <==> Redone(State()).Ok?
    {
      pointer + 1 < |history|
    }
  }
}
