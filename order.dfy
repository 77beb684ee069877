/**
 * The orders the contact list can be sorted by, the stable sort that
 * List.sort and SortedList apply, and the partition that moves pinned persons
 * to the top (UniquePersonList.prioritisePins).
 */
module PersonOrder {
  import opened Text
  import opened Results
  import opened Persons

  /**
   * How a tag set is written out for comparison: `getTags().toString()` on a
   * java.util.HashSet, whose iteration order is not part of this model. Every
   * property below holds for any such rendering.
   */
  type TagRenderer = set<string> -> string

  /** The attribute a list is sorted by. */
  datatype SortField = NameField | PhoneField | EmailField | AddressField | TagsField

  /** A single attribute, or the tag rendering first and then an attribute within each tag group. */
  datatype SortOrder = Single(field: SortField) | WithinTags(field: SortField)

  // ---------------------------------------------------------------------------
  // Prefixes (CliSyntax)

  const NamePrefix: string := "n/"
  const PhonePrefix: string := "p/"
  const EmailPrefix: string := "e/"
  const AddressPrefix: string := "a/"
  const TagPrefix: string := "t/"

  function PrefixOf(f: SortField): string {
    match f
    case NameField => NamePrefix
    case PhoneField => PhonePrefix
    case EmailField => EmailPrefix
    case AddressField => AddressPrefix
    case TagsField => TagPrefix
  }

  /** The switch of sortSinglePrefix and sortByFilteredList: which attribute a prefix names. */
  function FieldOfPrefix(prefix: string): (r: Option<SortField>)
    ensures r.Some? <==> prefix in {NamePrefix, PhonePrefix, EmailPrefix, AddressPrefix, TagPrefix}
    ensures r.Some? ==> PrefixOf(r.value) == prefix
  {
    if prefix == NamePrefix then Some(NameField)
    else if prefix == PhonePrefix then Some(PhoneField)
    else if prefix == EmailPrefix then Some(EmailField)
    else if prefix == AddressPrefix then Some(AddressField)
    else if prefix == TagPrefix then Some(TagsField)
    else None
  }

  /** Every attribute is named by exactly its own prefix. */
  lemma FieldOfPrefixRoundTrip(f: SortField)
    ensures FieldOfPrefix(PrefixOf(f)) == Some(f)
  {
  }

  /**
   * UniquePersonList.sortBy's choice of comparator, with the
   * IllegalArgumentException it throws as an Err.
   */
  function ParseSortOrder(prefixes: seq<string>): (r: Result<SortOrder, ModelError>)
    ensures |prefixes| == 1 ==>
      (r.Ok? <==> FieldOfPrefix(prefixes[0]).Some?) &&
      (r.Ok? ==> r.value == Single(FieldOfPrefix(prefixes[0]).value)) &&
      (r.Err? ==> r.error == IllegalArgument("Invalid sort prefix."))
    ensures |prefixes| == 2 ==>
      (r.Ok? <==> prefixes[0] == TagPrefix && prefixes[1] != TagPrefix && FieldOfPrefix(prefixes[1]).Some?) &&
      (r.Ok? ==> r.value == WithinTags(FieldOfPrefix(prefixes[1]).value)) &&
      (r.Err? ==> r.error == IllegalArgument("Invalid combination of prefixes."))
    ensures |prefixes| > 2 ==> r == Err(IllegalArgument("Invalid number of prefixes."))
    ensures |prefixes| == 0 ==> r == Err(IllegalArgument("Invalid combination of prefixes."))
  {
    if |prefixes| == 1 then
      match FieldOfPrefix(prefixes[0])
      case Some(f) => Ok(Single(f))
      case None => Err(IllegalArgument("Invalid sort prefix."))
    else if |prefixes| == 2 && prefixes[0] == TagPrefix then
      if prefixes[1] != TagPrefix && FieldOfPrefix(prefixes[1]).Some? then Ok(WithinTags(FieldOfPrefix(prefixes[1]).value))
      else Err(IllegalArgument("Invalid combination of prefixes."))
    else if |prefixes| > 2 then Err(IllegalArgument("Invalid number of prefixes."))
    else Err(IllegalArgument("Invalid combination of prefixes."))
  }

  /** The prefixes that select an order. */
  function PrefixesOf(order: SortOrder): seq<string> {
    match order
    case Single(f) => [PrefixOf(f)]
    case WithinTags(f) => [TagPrefix, PrefixOf(f)]
  }

  /** Every order sortBy can apply is selected by its own prefixes, and by no other. */
  lemma ParseSortOrderRoundTrip(order: SortOrder, prefixes: seq<string>)
    requires order.WithinTags? ==> order.field != TagsField
    ensures ParseSortOrder(PrefixesOf(order)) == Ok(order)
    ensures ParseSortOrder(prefixes) == Ok(order) ==> prefixes == PrefixesOf(order)
  {
    FieldOfPrefixRoundTrip(order.field);
    if ParseSortOrder(prefixes) == Ok(order) {
      if |prefixes| == 1 {
        assert prefixes == [prefixes[0]];
      } else {
        assert prefixes == [prefixes[0], prefixes[1]];
      }
    }
  }

  // ---------------------------------------------------------------------------
  // Comparators

  /** Comparator.comparing(key) on one attribute: strings by compareTo, phones by BigInteger value. */
  predicate FieldLeq(f: SortField, render: TagRenderer, p: Person, q: Person) {
    match f
    case NameField => StrLeq(p.name, q.name)
    case PhoneField => PhoneValue(p.phone) <= PhoneValue(q.phone)
    case EmailField => StrLeq(p.email, q.email)
    case AddressField => StrLeq(p.address, q.address)
    case TagsField => StrLeq(render(p.tags), render(q.tags))
  }

  /** compare(p, q) <= 0 under the comparator the order selects. */
  predicate Leq(order: SortOrder, render: TagRenderer, p: Person, q: Person) {
    match order
    case Single(f) => FieldLeq(f, render, p, q)
    case WithinTags(f) =>
      if render(p.tags) == render(q.tags) then FieldLeq(f, render, p, q)
      else StrLeq(render(p.tags), render(q.tags))
  }

  lemma FieldLeqTotal(f: SortField, render: TagRenderer, p: Person, q: Person)
    ensures FieldLeq(f, render, p, q) || FieldLeq(f, render, q, p)
  {
    match f
    case NameField => StrLeqTotal(p.name, q.name);
    case PhoneField =>
    case EmailField => StrLeqTotal(p.email, q.email);
    case AddressField => StrLeqTotal(p.address, q.address);
    case TagsField => StrLeqTotal(render(p.tags), render(q.tags));
  }

  lemma FieldLeqTransitive(f: SortField, render: TagRenderer, p: Person, q: Person, r: Person)
    requires FieldLeq(f, render, p, q) && FieldLeq(f, render, q, r)
    ensures FieldLeq(f, render, p, r)
  {
    match f
    case NameField => StrLeqTransitive(p.name, q.name, r.name);
    case PhoneField =>
    case EmailField => StrLeqTransitive(p.email, q.email, r.email);
    case AddressField => StrLeqTransitive(p.address, q.address, r.address);
    case TagsField => StrLeqTransitive(render(p.tags), render(q.tags), render(r.tags));
  }

  /** Every comparator sortBy uses is total ... */
  lemma LeqTotal(order: SortOrder, render: TagRenderer, p: Person, q: Person)
    ensures Leq(order, render, p, q) || Leq(order, render, q, p)
  {
    FieldLeqTotal(order.field, render, p, q);
    StrLeqTotal(render(p.tags), render(q.tags));
  }

  /** ... and transitive, so it is a total preorder and List.sort's contract is met. */
  lemma LeqTransitive(order: SortOrder, render: TagRenderer, p: Person, q: Person, r: Person)
    requires Leq(order, render, p, q) && Leq(order, render, q, r)
    ensures Leq(order, render, p, r)
  {
    match order
    case Single(f) => FieldLeqTransitive(f, render, p, q, r);
    case WithinTags(f) =>
      var tp, tq, tr := render(p.tags), render(q.tags), render(r.tags);
      if tp == tq && tq == tr {
        FieldLeqTransitive(f, render, p, q, r);
      } else {
        StrLeqReflexive(tp);
        StrLeqReflexive(tq);
        StrLeqTransitive(tp, tq, tr);
        if tp == tr {
          StrLeqAntisymmetric(tp, tq);
          assert false;
        }
      }
  }

  // ---------------------------------------------------------------------------
  // The stable sort of List.sort (TimSort) and SortedList

  /** Inserts x after every element that does not compare greater than it. */
  function Insert(order: SortOrder, render: TagRenderer, x: Person, s: seq<Person>): (r: seq<Person>)
    ensures multiset(r) == multiset(s) + multiset{x}
  {
    if s == [] then [x]
    else if !Leq(order, render, s[0], x) then [x] + s
    else
      assert s == [s[0]] + s[1..];
      [s[0]] + Insert(order, render, x, s[1..])
  }

  /**
   * The stable sort: each element is inserted after the earlier elements it
   * does not compare less than, so equal elements keep their order.
   */
  function Sort(order: SortOrder, render: TagRenderer, s: seq<Person>): (r: seq<Person>)
    ensures multiset(r) == multiset(s)
  {
    if s == [] then []
    else
      assert s == s[..|s| - 1] + [s[|s| - 1]];
      Insert(order, render, s[|s| - 1], Sort(order, render, s[..|s| - 1]))
  }

  ghost predicate Sorted(order: SortOrder, render: TagRenderer, s: seq<Person>) {
    forall i, j :: 0 <= i < j < |s| ==> Leq(order, render, s[i], s[j])
  }

  lemma {:induction false} InsertSorted(order: SortOrder, render: TagRenderer, x: Person, s: seq<Person>)
    requires Sorted(order, render, s)
    ensures Sorted(order, render, Insert(order, render, x, s))
  {
    var r := Insert(order, render, x, s);
    if s == [] {
    } else if !Leq(order, render, s[0], x) {
      LeqTotal(order, render, s[0], x);
      forall j | 0 < j < |r|
        ensures Leq(order, render, r[0], r[j])
      {
        if j > 1 {
          LeqTransitive(order, render, x, s[0], s[j - 1]);
        }
      }
    } else {
      var t := Insert(order, render, x, s[1..]);
      InsertSorted(order, render, x, s[1..]);
      forall j | 0 <= j < |t|
        ensures Leq(order, render, s[0], t[j])
      {
        assert t[j] in multiset(t);
        if t[j] != x {
          assert t[j] in multiset(s[1..]);
          var k :| 0 <= k < |s[1..]| && s[1..][k] == t[j];
          assert s[k + 1] == t[j];
        }
      }
    }
  }

  /** List.sort leaves the list in order under the comparator. */
  lemma {:induction false} SortSorted(order: SortOrder, render: TagRenderer, s: seq<Person>)
    ensures Sorted(order, render, Sort(order, render, s))
  {
    if s != [] {
      SortSorted(order, render, s[..|s| - 1]);
      InsertSorted(order, render, s[|s| - 1], Sort(order, render, s[..|s| - 1]));
    }
  }

  lemma {:induction false} InsertAfterSorted(order: SortOrder, render: TagRenderer, x: Person, s: seq<Person>)
    requires forall i :: 0 <= i < |s| ==> Leq(order, render, s[i], x)
    ensures Insert(order, render, x, s) == s + [x]
  {
    if s != [] {
      InsertAfterSorted(order, render, x, s[1..]);
      assert [s[0]] + (s[1..] + [x]) == s + [x];
    }
  }

  /** Sorting what is already in order changes nothing. */
  lemma {:induction false} SortOfSortedIsIdentity(order: SortOrder, render: TagRenderer, s: seq<Person>)
    requires Sorted(order, render, s)
    ensures Sort(order, render, s) == s
  {
    if s != [] {
      var init := s[..|s| - 1];
      SortOfSortedIsIdentity(order, render, init);
      InsertAfterSorted(order, render, s[|s| - 1], init);
      assert init + [s[|s| - 1]] == s;
    }
  }

  // ---------------------------------------------------------------------------
  // Pinned persons first (prioritisePins)

  /** The pinned persons of s, in their order in s. */
  function Pinned(s: seq<Person>): (r: seq<Person>)
    ensures forall i :: 0 <= i < |r| ==> r[i].pin.isPinned
    ensures forall x :: x in r ==> x in s
    ensures |r| <= |s|
  {
    if s == [] then []
    else Pinned(s[..|s| - 1]) + (if s[|s| - 1].pin.isPinned then [s[|s| - 1]] else [])
  }

  /** The persons of s that are not pinned, in their order in s. */
  function Unpinned(s: seq<Person>): (r: seq<Person>)
    ensures forall i :: 0 <= i < |r| ==> !r[i].pin.isPinned
    ensures forall x :: x in r ==> x in s
    ensures |r| <= |s|
  {
    if s == [] then []
    else Unpinned(s[..|s| - 1]) + (if s[|s| - 1].pin.isPinned then [] else [s[|s| - 1]])
  }

  /** What prioritisePins leaves: the pinned persons, then the others, each group in its old order. */
  function Prioritised(s: seq<Person>): seq<Person> {
    Pinned(s) + Unpinned(s)
  }

  lemma {:induction false} PartitionPermutation(s: seq<Person>)
    ensures multiset(Pinned(s)) + multiset(Unpinned(s)) == multiset(s)
  {
    if s != [] {
      PartitionPermutation(s[..|s| - 1]);
      assert s == s[..|s| - 1] + [s[|s| - 1]];
    }
  }

  /** The last element and the rest of a + b, for a non-empty b. */
  lemma InitOfAppend(a: seq<Person>, b: seq<Person>)
    requires b != []
    ensures (a + b)[..|a + b| - 1] == a + b[..|b| - 1] && (a + b)[|a + b| - 1] == b[|b| - 1]
  {
  }

  /** A non-empty list is its init followed by its last element. */
  lemma LastSplit(s: seq<Person>)
    requires s != []
    ensures s == s[..|s| - 1] + [s[|s| - 1]]
  {
  }

  lemma {:induction false} PinnedAppend(a: seq<Person>, b: seq<Person>)
    ensures Pinned(a + b) == Pinned(a) + Pinned(b)
    ensures Unpinned(a + b) == Unpinned(a) + Unpinned(b)
    decreases |b|
  {
    if b == [] {
      assert a + b == a;
    } else {
      PinnedAppend(a, b[..|b| - 1]);
      InitOfAppend(a, b);
    }
  }

  lemma {:induction false} PinnedOfPinned(s: seq<Person>)
    requires forall i :: 0 <= i < |s| ==> s[i].pin.isPinned
    ensures Pinned(s) == s && Unpinned(s) == []
  {
    if s != [] {
      PinnedOfPinned(s[..|s| - 1]);
    }
  }

  lemma {:induction false} PinnedOfUnpinned(s: seq<Person>)
    requires forall i :: 0 <= i < |s| ==> !s[i].pin.isPinned
    ensures Pinned(s) == [] && Unpinned(s) == s
  {
    if s != [] {
      PinnedOfUnpinned(s[..|s| - 1]);
    }
  }

  /** prioritisePins only reorders: the same persons, as often as before. */
  lemma PrioritisedPermutation(s: seq<Person>)
    ensures multiset(Prioritised(s)) == multiset(s)
  {
    PartitionPermutation(s);
  }

  /** After prioritisePins no unpinned person comes before a pinned one. */
  lemma PrioritisedPinsFirst(s: seq<Person>)
    ensures forall i, j :: 0 <= i < j < |Prioritised(s)| && Prioritised(s)[j].pin.isPinned ==>
      Prioritised(s)[i].pin.isPinned
  {
  }

  /** prioritisePins keeps the relative order within the pinned group and within the rest. */
  lemma PrioritisedKeepsOrder(s: seq<Person>)
    ensures Pinned(Prioritised(s)) == Pinned(s)
    ensures Unpinned(Prioritised(s)) == Unpinned(s)
  {
    PinnedAppend(Pinned(s), Unpinned(s));
    PinnedOfPinned(Pinned(s));
    PinnedOfUnpinned(Unpinned(s));
  }

  /** A second prioritisePins changes nothing. */
  lemma PrioritisedIdempotent(s: seq<Person>)
    ensures Prioritised(Prioritised(s)) == Prioritised(s)
  {
    PrioritisedKeepsOrder(s);
  }

  /** The pinned group and the rest of a sorted list are each sorted. */
  lemma {:induction false} PinnedSorted(order: SortOrder, render: TagRenderer, s: seq<Person>)
    requires Sorted(order, render, s)
    ensures Sorted(order, render, Pinned(s)) && Sorted(order, render, Unpinned(s))
  {
    if s != [] {
      var init, last := s[..|s| - 1], s[|s| - 1];
      PinnedSorted(order, render, init);
      assert forall x :: x in init ==> Leq(order, render, x, last);
    }
  }

  /**
   * What a sortBy leaves (List.sort, then prioritisePins): the same persons,
   * pinned ones first, and each group in order under the comparator.
   */
  function SortedAndPrioritised(order: SortOrder, render: TagRenderer, s: seq<Person>): seq<Person> {
    Prioritised(Sort(order, render, s))
  }

  lemma SortedAndPrioritisedSpec(order: SortOrder, render: TagRenderer, s: seq<Person>)
    ensures var r := SortedAndPrioritised(order, render, s);
      && multiset(r) == multiset(s)
      && Pinned(r) == Pinned(Sort(order, render, s)) && Sorted(order, render, Pinned(r))
      && Unpinned(r) == Unpinned(Sort(order, render, s)) && Sorted(order, render, Unpinned(r))
      && (forall i, j :: 0 <= i < j < |r| && r[j].pin.isPinned ==> r[i].pin.isPinned)
  {
    var sorted := Sort(order, render, s);
    PrioritisedPermutation(sorted);
    PrioritisedKeepsOrder(sorted);
    PrioritisedPinsFirst(sorted);
    SortSorted(order, render, s);
    PinnedSorted(order, render, sorted);
  }
}
