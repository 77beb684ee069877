/**
 * UniquePersonList: the contact list, in display order, in which no two
 * entries are the same person (share an email address).
 */
module UniquePersons {
  import opened Results
  import opened Persons
  import opened PersonOrder

  // ---------------------------------------------------------------------------
  // Uniqueness

  /** No two entries are the same person. */
  ghost predicate Unique(s: seq<Person>) {
    forall i, j :: 0 <= i < j < |s| ==> !IsSamePerson(s[i], Some(s[j]))
  }

  /** Uniqueness stated on the bag of entries: each occurs once, and distinct ones have distinct emails. */
  ghost predicate UniqueBag(m: multiset<Person>) {
    && (forall x | x in m :: m[x] == 1)
    && (forall x, y | x in m && y in m && x != y :: x.email != y.email)
  }

  lemma {:induction false} UniqueToBag(s: seq<Person>)
    requires Unique(s)
    ensures UniqueBag(multiset(s))
  {
    if s != [] {
      var init, last := s[..|s| - 1], s[|s| - 1];
      assert s == init + [last];
      assert Unique(init);
      UniqueToBag(init);
      assert forall k :: 0 <= k < |init| ==> init[k].email != last.email;
      assert last !in multiset(init);
      forall x, y | x in multiset(s) && y in multiset(s) && x != y
        ensures x.email != y.email
      {
        if x != last && y != last {
          assert x in multiset(init) && y in multiset(init);
        }
      }
    }
  }

  lemma {:induction false} BagToUnique(s: seq<Person>)
    requires UniqueBag(multiset(s))
    ensures Unique(s)
  {
    if s != [] {
      var init, last := s[..|s| - 1], s[|s| - 1];
      assert s == init + [last];
      assert multiset(s) == multiset(init) + multiset{last};
      forall x | x in multiset(init)
        ensures multiset(init)[x] == 1
      {
        assert multiset(init)[x] <= multiset(s)[x];
      }
      BagToUnique(init);
      assert multiset(s)[last] == multiset(init)[last] + 1;
      assert last !in multiset(init);
      forall k | 0 <= k < |init|
        ensures init[k].email != last.email
      {
        assert init[k] in multiset(init);
      }
    }
  }

  lemma UniqueIffBag(s: seq<Person>)
    ensures Unique(s) <==> UniqueBag(multiset(s))
  {
    if Unique(s) {
      UniqueToBag(s);
    }
    if UniqueBag(multiset(s)) {
      BagToUnique(s);
    }
  }

  /** Reordering a list never creates or removes a duplicate. */
  lemma UniquePermutation(a: seq<Person>, b: seq<Person>)
    requires multiset(a) == multiset(b)
    ensures Unique(a) <==> Unique(b)
  {
    UniqueIffBag(a);
    UniqueIffBag(b);
  }

  /** Whether some entry of s is the same person as p: contains' anyMatch. */
  predicate HasSamePerson(s: seq<Person>, p: Person) {
    s != [] && (IsSamePerson(p, Some(s[0])) || HasSamePerson(s[1..], p))
  }

  lemma {:induction false} HasSamePersonIff(s: seq<Person>, p: Person)
    ensures HasSamePerson(s, p) <==> exists i :: 0 <= i < |s| && s[i].email == p.email
  {
    if s != [] {
      HasSamePersonIff(s[1..], p);
      if exists i :: 0 <= i < |s| && s[i].email == p.email {
        var i :| 0 <= i < |s| && s[i].email == p.email;
        if i > 0 {
          assert s[1..][i - 1].email == p.email;
        }
      }
    }
  }

  /** List.indexOf: the first position holding an entry equal to p, or -1. */
  function IndexOf(s: seq<Person>, p: Person): (r: int)
    ensures -1 <= r < |s|
    ensures r == -1 <==> p !in s
    ensures r >= 0 ==> s[r] == p && p !in s[..r]
  {
    if s == [] then -1
    else if s[0] == p then 0
    else
      var r := IndexOf(s[1..], p);
      assert s == [s[0]] + s[1..];
      if r == -1 then -1
      else
        assert s[..r + 1] == [s[0]] + s[1..][..r];
        r + 1
  }

  /** In a unique list a person is found at its own position. */
  lemma IndexOfUnique(s: seq<Person>, i: int)
    requires Unique(s) && 0 <= i < |s|
    ensures IndexOf(s, s[i]) == i
  {
    assert forall k :: 0 <= k < i ==> s[k].email != s[i].email;
    assert s[i] in s[..i + 1];
  }

  /** s without its entry at k. */
  function RemoveAt(s: seq<Person>, k: nat): (r: seq<Person>)
    requires k < |s|
    ensures |r| == |s| - 1
    ensures multiset(r) + multiset{s[k]} == multiset(s)
  {
    assert s == s[..k] + [s[k]] + s[k + 1..];
    s[..k] + s[k + 1..]
  }

  /** s with x inserted so that it ends up at position k. */
  function InsertAt(s: seq<Person>, k: nat, x: Person): (r: seq<Person>)
    requires k <= |s|
    ensures |r| == |s| + 1 && r[k] == x
    ensures multiset(r) == multiset(s) + multiset{x}
  {
    assert s == s[..k] + s[k..];
    s[..k] + [x] + s[k..]
  }

  /** Dropping an entry keeps a list unique. */
  lemma RemoveKeepsUnique(s: seq<Person>, k: nat)
    requires k < |s| && Unique(s)
    ensures Unique(RemoveAt(s, k))
  {
    var r := RemoveAt(s, k);
    assert forall a :: 0 <= a < |r| ==> r[a] == if a < k then s[a] else s[a + 1];
  }

  /** Moving an entry to another position keeps a list unique. */
  lemma MoveKeepsUnique(s: seq<Person>, from: nat, to: nat)
    requires from < |s| && to <= |s| - 1
    requires Unique(s)
    ensures Unique(InsertAt(RemoveAt(s, from), to, s[from]))
  {
    UniquePermutation(s, InsertAt(RemoveAt(s, from), to, s[from]));
  }

  // ---------------------------------------------------------------------------
  // The list

  class UniquePersonList {
    /** internalList */
    var list: seq<Person>

    ghost predicate Valid()
      reads this
    {
      Unique(list)
    }

    constructor()
      ensures Valid() && list == []
    {
      list := [];
    }

    /** contains: whether some entry is the same person as toCheck. */
    function Contains(toCheck: Person): (b: bool)
      reads this
      ensures b <==> exists i :: 0 <= i < |list| && list[i].email == toCheck.email
    {
      HasSamePersonIff(list, toCheck);
      HasSamePerson(list, toCheck)
    }

    /** equals: the same entries in the same order. */
    function Equals(other: UniquePersonList): (b: bool)
      reads this, other
      ensures b <==> list == other.list
      ensures b ==> multiset(list) == multiset(other.list)
    {
      other == this || list == other.list
    }

    /** add: appends toAdd, unless it is already there as the same person. */
    method Add(toAdd: Person) returns (r: Outcome<ModelError>)
      requires Valid()
      modifies this
      ensures Valid()
      ensures r == (if old(Contains(toAdd)) then Fail(DuplicatePerson) else Pass)
      ensures list == if r.Pass? then old(list) + [toAdd] else old(list)
    {
      if Contains(toAdd) {
        return Fail(DuplicatePerson);
      }
      list := list + [toAdd];
      r := Pass;
    }

    /**
     * setPerson: replaces the entry equal to target by editedPerson, unless
     * target is absent or editedPerson is another person already in the list.
     */
    method SetPerson(target: Person, editedPerson: Person) returns (r: Outcome<ModelError>)
      requires Valid()
      modifies this
      ensures Valid()
      ensures r == (
        if target !in old(list) then Fail(PersonNotFound)
        else if !IsSamePerson(target, Some(editedPerson)) && old(Contains(editedPerson)) then Fail(DuplicatePerson)
        else Pass)
      ensures list == if r.Pass? then old(list)[IndexOf(old(list), target) := editedPerson] else old(list)
    {
      var index := IndexOf(list, target);
      if index == -1 {
        return Fail(PersonNotFound);
      }
      if !IsSamePerson(target, Some(editedPerson)) && Contains(editedPerson) {
        return Fail(DuplicatePerson);
      }
      list := list[index := editedPerson];
      r := Pass;
    }

    /** remove: drops the first entry equal to toRemove. */
    method Remove(toRemove: Person) returns (r: Outcome<ModelError>)
      requires Valid()
      modifies this
      ensures Valid()
      ensures r == if toRemove in old(list) then Pass else Fail(PersonNotFound)
      ensures r.Pass? ==> list == RemoveAt(old(list), IndexOf(old(list), toRemove))
      ensures r.Fail? ==> list == old(list)
      ensures multiset(list) == multiset(old(list)) - multiset{toRemove}
    {
      var index := IndexOf(list, toRemove);
      if index == -1 {
        return Fail(PersonNotFound);
      }
      RemoveKeepsUnique(list, index);
      list := RemoveAt(list, index);
      r := Pass;
    }

    /** setPersons(UniquePersonList): takes over the other list's entries. */
    method SetPersonsFrom(replacement: UniquePersonList)
      requires Valid() && replacement.Valid()
      modifies this
      ensures Valid()
      ensures list == old(replacement.list)
    {
      list := replacement.list;
    }

    /** setPersons(List): takes over persons, unless two of them are the same person. */
    method SetPersons(persons: seq<Person>) returns (r: Outcome<ModelError>)
      requires Valid()
      modifies this
      ensures Valid()
      ensures r == if Unique(persons) then Pass else Fail(DuplicatePerson)
      ensures list == if r.Pass? then persons else old(list)
    {
      var unique := PersonsAreUnique(persons);
      if !unique {
        return Fail(DuplicatePerson);
      }
      list := persons;
      r := Pass;
    }

    /** personsAreUnique: compares every pair of positions. */
    static method PersonsAreUnique(persons: seq<Person>) returns (b: bool)
      ensures b == Unique(persons)
    {
      var i := 0;
      while i < |persons| - 1
        invariant 0 <= i <= |persons|
        invariant forall k, j :: 0 <= k < i && k < j < |persons| ==> !IsSamePerson(persons[k], Some(persons[j]))
      {
        var j := i + 1;
        while j < |persons|
          invariant i + 1 <= j <= |persons|
          invariant forall j' :: i < j' < j ==> !IsSamePerson(persons[i], Some(persons[j']))
        {
          if IsSamePerson(persons[i], Some(persons[j])) {
            return false;
          }
          j := j + 1;
        }
        i := i + 1;
      }
      return true;
    }

    /** pinPerson: moves the entry equal to toPin to the front. */
    method PinPerson(toPin: Person) returns (r: Outcome<ModelError>)
      requires Valid()
      modifies this
      ensures Valid()
      ensures r == if toPin in old(list) then Pass else Fail(PersonNotFound)
      ensures list == if r.Pass? then [toPin] + RemoveAt(old(list), IndexOf(old(list), toPin)) else old(list)
      ensures multiset(list) == multiset(old(list))
    {
      var index := IndexOf(list, toPin);
      if index == -1 {
        return Fail(PersonNotFound);
      }
      MoveKeepsUnique(list, index, 0);
      list := RemoveAt(list, index);
      list := InsertAt(list, 0, toPin);
      r := Pass;
    }

    /** unpinPerson: when toUnpin is in the list, moves every pinned entry to the top. */
    method UnpinPerson(toUnpin: Person) returns (r: Outcome<ModelError>)
      requires Valid()
      modifies this
      ensures Valid()
      ensures r == if toUnpin in old(list) then Pass else Fail(PersonNotFound)
      ensures list == if r.Pass? then Prioritised(old(list)) else old(list)
    {
      var index := IndexOf(list, toUnpin);
      if index == -1 {
        return Fail(PersonNotFound);
      }
      PrioritisePins();
      r := Pass;
    }

    /**
     * prioritisePins: walks the live list; each pinned entry met is taken out
     * and put back right after the pinned entries already moved.
     */
    method PrioritisePins()
      requires Valid()
      modifies this
      ensures Valid()
      ensures list == Prioritised(old(list))
    {
      ghost var s := list;
      var pinnedIndex := 0;
      var i := 0;
      while i < |list|
        invariant PrioritiseState(list, s, pinnedIndex, i)
      {
        pinnedIndex := VisitForPin(s, pinnedIndex, i);
        i := i + 1;
      }
      PrioritiseDone(list, s, pinnedIndex);
    }

    /** The body of prioritisePins' loop for the entry at i. */
    method VisitForPin(ghost s: seq<Person>, pinnedIndex: int, i: int) returns (next: int)
      requires PrioritiseState(list, s, pinnedIndex, i) && i < |list|
      modifies this
      ensures PrioritiseState(list, s, next, i + 1)
    {
      PrioritiseStep(list, s, pinnedIndex, i);
      var person := list[i];
      next := pinnedIndex;
      if person.pin.isPinned {
        var index := IndexOf(list, person);
        list := InsertAt(RemoveAt(list, index), pinnedIndex, person);
        next := pinnedIndex + 1;
      }
    }

    /**
     * sortBy: sorts by the order the prefixes select, then moves the pinned
     * entries to the top; prefixes that select no order leave the list as it is.
     */
    method SortBy(prefixes: seq<string>, render: TagRenderer) returns (r: Outcome<ModelError>)
      requires Valid()
      modifies this
      ensures Valid()
      ensures r == if ParseSortOrder(prefixes).Ok? then Pass else Fail(ParseSortOrder(prefixes).error)
      ensures list == if r.Pass? then SortedAndPrioritised(ParseSortOrder(prefixes).value, render, old(list)) else old(list)
    {
      match ParseSortOrder(prefixes)
      case Err(e) =>
        return Fail(e);
      case Ok(order) =>
        UniquePermutation(list, Sort(order, render, list));
        list := Sort(order, render, list);
        PrioritisePins();
        r := Pass;
    }
  }

  /**
   * The state of prioritisePins after i steps over the original list s:
   * the pinned persons met so far, then the others met so far, then the
   * part not yet visited, untouched.
   */
  ghost predicate PrioritiseInvariant(l: seq<Person>, s: seq<Person>, p: int, i: int) {
    && |l| == |s|
    && 0 <= p <= i <= |s|
    && l[..p] == Pinned(s[..i])
    && l[p..i] == Unpinned(s[..i])
    && l[i..] == s[i..]
  }

  lemma PrioritiseStepPinned(l: seq<Person>, s: seq<Person>, p: int, i: int)
    requires PrioritiseInvariant(l, s, p, i) && i < |s| && l[i].pin.isPinned
    ensures PrioritiseInvariant(l[..p] + [l[i]] + l[p..i] + l[i + 1..], s, p + 1, i + 1)
  {
    var x := l[i];
    assert x == s[i] by { assert l[i..][0] == s[i..][0]; }
    PartitionSnoc(s, i);
    var l' := l[..p] + [x] + l[p..i] + l[i + 1..];
    assert l'[..p + 1] == l[..p] + [x];
    assert l'[p + 1..i + 1] == l[p..i];
    assert l'[i + 1..] == l[i + 1..] == s[i + 1..] by {
      assert l[i + 1..] == l[i..][1..];
      assert s[i + 1..] == s[i..][1..];
    }
  }

  /** The loop invariant of prioritisePins: the partition so far, over a list that stays unique. */
  ghost predicate PrioritiseState(l: seq<Person>, s: seq<Person>, p: int, i: int) {
    PrioritiseInvariant(l, s, p, i) && Unique(l)
  }

  /**
   * One step of prioritisePins: a pinned entry met at i is found at i and
   * moved to p; an unpinned one stays. Either way the invariant advances.
   */
  lemma PrioritiseStep(l: seq<Person>, s: seq<Person>, p: int, i: int)
    requires PrioritiseState(l, s, p, i) && i < |l|
    ensures l[i].pin.isPinned ==>
      && IndexOf(l, l[i]) == i
      && PrioritiseState(InsertAt(RemoveAt(l, i), p, l[i]), s, p + 1, i + 1)
    ensures !l[i].pin.isPinned ==> PrioritiseState(l, s, p, i + 1)
  {
    if l[i].pin.isPinned {
      IndexOfUnique(l, i);
      MoveKeepsUnique(l, i, p);
      PrioritiseStepPinned(l, s, p, i);
      MoveBack(l, p, i);
    } else {
      PrioritiseStepUnpinned(l, s, p, i);
    }
  }

  /** When the walk is over, the list is the prioritised original. */
  lemma PrioritiseDone(l: seq<Person>, s: seq<Person>, p: int)
    requires PrioritiseInvariant(l, s, p, |s|)
    ensures l == Prioritised(s)
  {
    assert s[..|s|] == s;
    assert l == l[..p] + l[p..|s|];
  }

  lemma PrioritiseStepUnpinned(l: seq<Person>, s: seq<Person>, p: int, i: int)
    requires PrioritiseInvariant(l, s, p, i) && i < |s| && !l[i].pin.isPinned
    ensures PrioritiseInvariant(l, s, p, i + 1)
  {
    var x := l[i];
    assert x == s[i] by { assert l[i..][0] == s[i..][0]; }
    PartitionSnoc(s, i);
    assert l[p..i + 1] == l[p..i] + [x];
    assert l[i + 1..] == s[i + 1..] by {
      assert l[i + 1..] == l[i..][1..];
      assert s[i + 1..] == s[i..][1..];
    }
  }

  /** Extending the visited prefix by one entry extends one of the two groups by that entry. */
  lemma PartitionSnoc(s: seq<Person>, i: int)
    requires 0 <= i < |s|
    ensures Pinned(s[..i + 1]) == Pinned(s[..i]) + (if s[i].pin.isPinned then [s[i]] else [])
    ensures Unpinned(s[..i + 1]) == Unpinned(s[..i]) + (if s[i].pin.isPinned then [] else [s[i]])
  {
    assert s[..i + 1][..i] == s[..i];
  }

  /** One step of prioritisePins: the entry at i moves back to position p. */
  lemma MoveBack(l: seq<Person>, p: nat, i: nat)
    requires p <= i < |l|
    ensures InsertAt(RemoveAt(l, i), p, l[i]) == l[..p] + [l[i]] + l[p..i] + l[i + 1..]
  {
    var t := RemoveAt(l, i);
    assert t[..p] == l[..p];
    assert t[p..] == l[p..i] + l[i + 1..];
  }
}
