/**
 * DeleteCommand: deletes the persons at one or more positions of the
 * displayed list. The positions are held highest first, so that deleting
 * through the live view never shifts a position still to be deleted.
 */
module DeleteCommands {
  import opened Results
  import opened Persons
  import opened Indexes
  import opened UniquePersons
  import opened Models
  import opened Commands

  // ---------------------------------------------------------------------------
  // The target list

  /** Strictly decreasing by zero-based position, hence free of duplicates. */
  predicate Descending(ts: seq<Index>) {
    forall i, j :: 0 <= i < j < |ts| ==> ts[i].zeroBased > ts[j].zeroBased
  }

  /** The positions are descending and the highest of them lies in a list of n entries. */
  predicate Fits(ts: seq<Index>, n: nat) {
    Descending(ts) && (|ts| > 0 ==> ts[0].zeroBased < n)
  }

  /** In a descending list the k-th position is at least k below the first. */
  lemma {:induction false} DescendingGap(ts: seq<Index>, k: nat)
    requires Descending(ts) && k < |ts|
    ensures ts[k].zeroBased + k <= ts[0].zeroBased
  {
    if k > 0 {
      DescendingGap(ts, k - 1);
    }
  }

  /** In a fitting list the k-th position lies within the first n - k entries. */
  lemma FitsBound(ts: seq<Index>, n: nat, k: nat)
    requires Fits(ts, n) && k < |ts|
    ensures ts[k].zeroBased < n - k
  {
    DescendingGap(ts, k);
  }

  datatype DeleteCommand = DeleteCommand(targetIndexes: seq<Index>) {
    /** The constraints the class states on targetIndexes: non-empty, unique, decreasing. */
    predicate Valid() {
      |targetIndexes| > 0 && Descending(targetIndexes)
    }
  }

  /** The single-index constructor. */
  function SingleDelete(targetIndex: Index): (c: DeleteCommand)
    ensures c.Valid() && c.targetIndexes == [targetIndex]
  {
    DeleteCommand([targetIndex])
  }

  predicate IsHighest(m: Index, s: set<Index>) {
    m in s && forall y :: y in s ==> y.zeroBased <= m.zeroBased
  }

  lemma {:induction false} HighestExists(s: set<Index>)
    requires s != {}
    ensures exists m :: IsHighest(m, s)
    decreases |s|
  {
    var x :| x in s;
    if s == {x} {
      assert IsHighest(x, s);
    } else {
      HighestExists(s - {x});
      var m :| IsHighest(m, s - {x});
      if x.zeroBased > m.zeroBased {
        assert IsHighest(x, s);
      } else {
        assert IsHighest(m, s);
      }
    }
  }

  /** Every other index of a set lies below its highest one. */
  lemma BelowHighest(m: Index, s: set<Index>, rest: seq<Index>)
    requires IsHighest(m, s)
    requires forall x :: x in rest <==> x in s - {m}
    ensures forall k :: 0 <= k < |rest| ==> rest[k].zeroBased < m.zeroBased
  {
    forall k | 0 <= k < |rest|
      ensures rest[k].zeroBased < m.zeroBased
    {
      assert rest[k] in s - {m};
    }
  }

  /** A position above a descending list extends it. */
  lemma ConsDescending(m: Index, rest: seq<Index>)
    requires Descending(rest)
    requires forall k :: 0 <= k < |rest| ==> rest[k].zeroBased < m.zeroBased
    ensures Descending([m] + rest)
  {
    var r := [m] + rest;
    forall i, j | 0 <= i < j < |r|
      ensures r[i].zeroBased > r[j].zeroBased
    {
      assert r[j] == rest[j - 1];
      if i > 0 {
        assert r[i] == rest[i - 1];
      }
    }
  }

  /** The highest index of a non-empty set; it is unique, since an index is its position. */
  function Highest(s: set<Index>): (m: Index)
    requires s != {}
    ensures IsHighest(m, s)
  {
    HighestExists(s);
    var m :| IsHighest(m, s);
    m
  }

  /** The indexes of a set, highest first. */
  function HighestFirst(s: set<Index>): (r: seq<Index>)
    ensures |r| == |s|
    ensures forall x :: x in r <==> x in s
    ensures Descending(r)
    decreases |s|
  {
    if s == {} then []
    else
      var m := Highest(s);
      var rest := HighestFirst(s - {m});
      BelowHighest(m, s, rest);
      ConsDescending(m, rest);
      [m] + rest
  }

  /** The set constructor: the indexes sorted by decreasing zero-based position. */
  function MultipleDelete(targetIndexes: set<Index>): (c: DeleteCommand)
    ensures c.Valid() <==> targetIndexes != {}
    ensures forall x :: x in c.targetIndexes <==> x in targetIndexes
    ensures |c.targetIndexes| == |targetIndexes|
  {
    DeleteCommand(HighestFirst(targetIndexes))
  }

  // ---------------------------------------------------------------------------
  // What deleting does to the displayed list

  /** The persons shown at the first n positions of ts, in the order of ts. */
  function Picked(view: seq<Person>, ts: seq<Index>, n: nat): (r: seq<Person>)
    requires Fits(ts, |view|) && n <= |ts|
    ensures |r| == n
    ensures forall k :: 0 <= k < n ==> ts[k].zeroBased < |view| && r[k] == view[ts[k].zeroBased]
  {
    if n == 0 then []
    else
      FitsBound(ts, |view|, n - 1);
      Picked(view, ts, n - 1) + [view[ts[n - 1].zeroBased]]
  }

  /** The displayed list after deleting the entry at each of the first n positions of ts in turn. */
  function RemainingAfter(view: seq<Person>, ts: seq<Index>, n: nat): (r: seq<Person>)
    requires Fits(ts, |view|) && n <= |ts|
    ensures |r| == |view| - n
  {
    if n == 0 then view
    else
      FitsBound(ts, |view|, n - 1);
      RemoveAt(RemainingAfter(view, ts, n - 1), ts[n - 1].zeroBased)
  }

  /** Entries below every deleted position keep their place. */
  lemma {:induction false} RemainingKeepsBelow(view: seq<Person>, ts: seq<Index>, n: nat, i: nat)
    requires Fits(ts, |view|) && n <= |ts| && i < |view|
    requires n > 0 ==> i < ts[n - 1].zeroBased
    ensures i < |RemainingAfter(view, ts, n)| && RemainingAfter(view, ts, n)[i] == view[i]
  {
    if n > 0 {
      FitsBound(ts, |view|, n - 1);
      if n > 1 {
        assert ts[n - 2].zeroBased > ts[n - 1].zeroBased;
      }
      RemainingKeepsBelow(view, ts, n - 1, i);
    }
  }

  /** The deleted and the remaining persons together are the displayed ones. */
  lemma {:induction false} RemainingPlusPicked(view: seq<Person>, ts: seq<Index>, n: nat)
    requires Fits(ts, |view|) && n <= |ts|
    ensures multiset(RemainingAfter(view, ts, n)) + multiset(Picked(view, ts, n)) == multiset(view)
  {
    if n > 0 {
      DeleteStep(view, ts, n - 1);
      RemainingPlusPicked(view, ts, n - 1);
      MoveOne(RemainingAfter(view, ts, n - 1), Picked(view, ts, n - 1), ts[n - 1].zeroBased);
    }
  }

  /** Moving the entry at t of r onto the end of p keeps the two together unchanged. */
  lemma MoveOne(r: seq<Person>, p: seq<Person>, t: nat)
    requires t < |r|
    ensures multiset(RemoveAt(r, t)) + multiset(p + [r[t]]) == multiset(r) + multiset(p)
  {
  }

  /**
   * Deleting through the live view removes exactly the persons originally
   * shown at the targeted positions: in a list without duplicates a person
   * remains iff it was shown and not targeted.
   */
  lemma DeletesExactlyTargets(view: seq<Person>, ts: seq<Index>)
    requires Fits(ts, |view|) && Unique(view)
    ensures forall x :: x in RemainingAfter(view, ts, |ts|) <==> x in view && x !in Picked(view, ts, |ts|)
  {
    RemainingPlusPicked(view, ts, |ts|);
    UniqueToBag(view);
    var rest, picked := RemainingAfter(view, ts, |ts|), Picked(view, ts, |ts|);
    forall x
      ensures x in rest <==> x in view && x !in picked
    {
      assert multiset(rest)[x] + multiset(picked)[x] == multiset(view)[x];
    }
  }

  /** The reversal of a list, used to report the deleted persons lowest position first. */
  function Reverse(s: seq<Person>): (r: seq<Person>)
    ensures |r| == |s|
    ensures forall k :: 0 <= k < |s| ==> r[k] == s[|s| - 1 - k]
  {
    if s == [] then [] else [s[|s| - 1]] + Reverse(s[..|s| - 1])
  }

  /** One round of execute: the next target is still shown where it was. */
  lemma DeleteStep(view: seq<Person>, ts: seq<Index>, j: nat)
    requires Fits(ts, |view|) && j < |ts|
    ensures ts[j].zeroBased < |RemainingAfter(view, ts, j)|
    ensures RemainingAfter(view, ts, j)[ts[j].zeroBased] == view[ts[j].zeroBased]
  {
    FitsBound(ts, |view|, j);
    if j > 0 {
      assert ts[j - 1].zeroBased > ts[j].zeroBased;
    }
    RemainingKeepsBelow(view, ts, j, ts[j].zeroBased);
  }

  lemma MultisetDifference(a: multiset<Person>, b: multiset<Person>, x: Person)
    ensures a - b - multiset{x} == a - (b + multiset{x})
  {
  }

  /**
   * One deletion of execute: the person shown at position t is deleted from
   * the book, which removes exactly that position from the view.
   */
  method DeleteShown(model: ModelManager, t: nat) returns (p: Person)
    requires model.Valid() && t < |model.GetFilteredPersonList()|
    modifies model.book.persons
    ensures model.Valid()
    ensures p == old(model.GetFilteredPersonList())[t]
    ensures model.GetFilteredPersonList() == RemoveAt(old(model.GetFilteredPersonList()), t)
    ensures multiset(model.Persons()) == multiset(old(model.Persons())) - multiset{p}
  {
    var shown := model.GetFilteredPersonList();
    FilterRemove(model.Persons(), model.filterPredicate, model.matchers, t);
    p := shown[t];
    var outcome := model.DeletePerson(p);
  }

  // ---------------------------------------------------------------------------
  // execute

  /**
   * The state of execute's loop after j deletions: the first j targets of
   * the view are deleted, in order, and exactly they have left the book.
   */
  ghost predicate DeletedSoFar(model: ModelManager, view: seq<Person>, ts: seq<Index>, j: int,
                               deleted: seq<Person>, persons0: seq<Person>)
    reads model, model.book, model.book.persons, model.pastCommands
  {
    && 0 <= j <= |ts| && Fits(ts, |view|)
    && model.Valid()
    && deleted == Picked(view, ts, j)
    && model.GetFilteredPersonList() == RemainingAfter(view, ts, j)
    && multiset(model.Persons()) == multiset(persons0) - multiset(deleted)
  }

  /** One round of execute's loop: deletes the person shown at the j-th target and records it. */
  method DeleteNext(model: ModelManager, view: seq<Person>, ts: seq<Index>, j: int,
                    deleted: seq<Person>, ghost persons0: seq<Person>) returns (next: seq<Person>)
    requires DeletedSoFar(model, view, ts, j, deleted, persons0) && j < |ts|
    modifies model.book.persons
    ensures DeletedSoFar(model, view, ts, j + 1, next, persons0)
  {
    var t := ts[j].zeroBased;
    DeleteStep(view, ts, j);
    var personToDelete := DeleteShown(model, t);
    MultisetDifference(multiset(persons0), multiset(deleted), personToDelete);
    next := deleted + [personToDelete];
  }

  /**
   * The loop of execute: deletes the persons shown at the positions ts,
   * highest first, through the live view, and collects them in that order.
   */
  method DeleteAll(model: ModelManager, ts: seq<Index>) returns (deleted: seq<Person>)
    requires model.Valid() && Fits(ts, |model.GetFilteredPersonList()|)
    modifies model.book.persons
    ensures model.Valid()
    ensures model.book.history == old(model.book.history) && model.book.pointer == old(model.book.pointer)
    ensures deleted == Picked(old(model.GetFilteredPersonList()), ts, |ts|)
    ensures model.GetFilteredPersonList() == RemainingAfter(old(model.GetFilteredPersonList()), ts, |ts|)
    ensures multiset(model.Persons()) == multiset(old(model.Persons())) - multiset(deleted)
  {
    var view := model.GetFilteredPersonList();
    ghost var persons := model.Persons();
    deleted := [];
    var j := 0;
    while j < |ts|
      invariant DeletedSoFar(model, view, ts, j, deleted, persons)
    {
      deleted := DeleteNext(model, view, ts, j, deleted, persons);
      j := j + 1;
    }
  }

  /**
   * execute: fails, deleting nothing, when the highest position is not
   * displayed; otherwise deletes the shown persons highest first and returns
   * them lowest first (the list the success message formats). It does not
   * save a state of the book.
   */
  method Execute(c: DeleteCommand, model: ModelManager) returns (r: Result<seq<Person>, string>)
    requires c.Valid() && model.Valid()
    modifies model.book.persons
    ensures model.Valid()
    ensures model.book.history == old(model.book.history) && model.book.pointer == old(model.book.pointer)
    ensures c.targetIndexes[0].zeroBased >= |old(model.GetFilteredPersonList())| ==>
      r == Err(MessageInvalidPersonDisplayedIndex) && model.Persons() == old(model.Persons())
    ensures c.targetIndexes[0].zeroBased < |old(model.GetFilteredPersonList())| ==>
      var view := old(model.GetFilteredPersonList());
      && r == Ok(Reverse(Picked(view, c.targetIndexes, |c.targetIndexes|)))
      && model.GetFilteredPersonList() == RemainingAfter(view, c.targetIndexes, |c.targetIndexes|)
      && multiset(model.Persons()) == multiset(old(model.Persons())) - multiset(Picked(view, c.targetIndexes, |c.targetIndexes|))
  {
    var lastShownList := model.GetFilteredPersonList();
    if c.targetIndexes[0].zeroBased >= |lastShownList| {
      return Err(MessageInvalidPersonDisplayedIndex);
    }
    var deletedPersons := DeleteAll(model, c.targetIndexes);
    r := Ok(Reverse(deletedPersons));
  }
}
