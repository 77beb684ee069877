/**
 * FilteredPersonList: a sorted view of a person list. The view holds no
 * predicate of its own (every person passes) and is ordered by the comparator
 * last chosen, or kept in source order while none is chosen.
 */
module FilteredPersons {
  import opened Results
  import opened Persons
  import opened PersonOrder

  /** The view: the source itself, or its stable sort by the chosen field. */
  function SortedView(source: seq<Person>, comparator: Option<SortField>, render: TagRenderer): seq<Person> {
    match comparator
    case None => source
    case Some(f) => Sort(Single(f), render, source)
  }

  /** The view holds exactly the source's persons and, once a comparator is chosen, is in order under it. */
  lemma SortedViewSpec(source: seq<Person>, comparator: Option<SortField>, render: TagRenderer)
    ensures multiset(SortedView(source, comparator, render)) == multiset(source)
    ensures comparator.Some? ==> Sorted(Single(comparator.value), render, SortedView(source, comparator, render))
    ensures comparator.None? ==> SortedView(source, comparator, render) == source
  {
    if comparator.Some? {
      SortSorted(Single(comparator.value), render, source);
    }
  }

  class FilteredPersonList {
    /** The list the view is built on. */
    const source: seq<Person>
    /** HashSet<Tag>.toString, used by the tag comparator. */
    const render: TagRenderer
    /** The comparator of the sorted list: the field it compares. */
    var comparator: Option<SortField>

    /** The constructor: a view of the whole source, unsorted. */
    constructor(source: seq<Person>, render: TagRenderer)
      ensures this.source == source && this.render == render && comparator.None?
      ensures GetSortedList() == source
    {
      this.source := source;
      this.render := render;
      comparator := None;
    }

    /** getSortedList */
    function GetSortedList(): (r: seq<Person>)
      reads this
      ensures multiset(r) == multiset(source)
    {
      SortedViewSpec(source, comparator, render);
      SortedView(source, comparator, render)
    }

    /**
     * sortByFilteredList: "n/", "p/", "e/", "a/" and "t/" choose the comparator
     * on that field; any other prefix is ignored.
     */
    method SortByFilteredList(prefix: string)
      modifies this
      ensures FieldOfPrefix(prefix).Some? ==> comparator == FieldOfPrefix(prefix)
      ensures FieldOfPrefix(prefix).None? ==> comparator == old(comparator)
    {
      match FieldOfPrefix(prefix)
      case Some(f) => SortByField(f);
      case None =>
    }

    /** sortByName, sortByPhoneNumber, sortByEmailAddress, sortByAddress and sortByTags. */
    method SortByField(f: SortField)
      modifies this
      ensures comparator == Some(f)
      ensures Sorted(Single(f), render, GetSortedList())
    {
      comparator := Some(f);
      SortedViewSpec(source, comparator, render);
    }
  }
}
