/**
 * SortCommand and SortCommandParser: sort the book by an attribute, pinned
 * persons first, and save the sorted book as a new state.
 */
module SortCommands {
  import opened Results
  import opened Text
  import opened Persons
  import opened PersonOrder
  import opened UniquePersons
  import opened Versioned
  import opened Models
  import opened Commands

  const MessagePrefixesEmpty: string := "Prefixes cannot be null or empty"

  datatype SortCommand = SortCommand(prefixes: seq<string>)

  /** The constructor: refuses an empty prefix list; getSortPrefix returns what it was given. */
  function NewSortCommand(prefixes: seq<string>): (r: Result<SortCommand, ModelError>)
    ensures r.Ok? <==> |prefixes| > 0
    ensures r.Ok? ==> r.value.prefixes == prefixes
    ensures r.Err? ==> r.error == IllegalArgument(MessagePrefixesEmpty)
  {
    if |prefixes| == 0 then Err(IllegalArgument(MessagePrefixesEmpty)) else Ok(SortCommand(prefixes))
  }

  /**
   * execute: sorts the book by the prefixes (pinned persons first), leaves
   * the filter alone and saves the sorted book as a new state. A sort the
   * prefixes do not select throws before the save, and nothing changes.
   */
  method Execute(c: SortCommand, model: ModelManager) returns (r: Result<string, ModelError>)
    requires model.Valid()
    modifies model, model.book, model.book.persons
    ensures model.Valid()
    ensures r == if ParseSortOrder(c.prefixes).Ok? then Ok(MessageSortSuccessful) else Err(ParseSortOrder(c.prefixes).error)
    ensures r.Err? ==> model.book.State() == old(model.book.State())
    ensures r.Ok? ==>
      var sorted := SortedAndPrioritised(ParseSortOrder(c.prefixes).value, model.render, old(model.Persons()));
      model.book.State() == Committed(old(model.book.State()).(data := sorted))
    ensures model.currentPredicate == old(model.currentPredicate) && model.predicateHistory == old(model.predicateHistory)
  {
    var sorting := model.UpdateSortedPersonList(c.prefixes);
    if sorting.Fail? {
      return Err(sorting.error);
    }
    model.UpdateSortedFilteredPersonList(c.prefixes);
    model.CommitAddressBook();
    r := Ok(MessageSortSuccessful);
  }

  /** The sort of a successful execute: the same persons, pinned ones first, each group in order. */
  lemma ExecuteSortsBook(c: SortCommand, render: TagRenderer, s: seq<Person>)
    requires ParseSortOrder(c.prefixes).Ok?
    ensures var r := SortedAndPrioritised(ParseSortOrder(c.prefixes).value, render, s);
      && multiset(r) == multiset(s)
      && (forall i, j :: 0 <= i < j < |r| && r[j].pin.isPinned ==> r[i].pin.isPinned)
      && Sorted(ParseSortOrder(c.prefixes).value, render, Pinned(r))
      && Sorted(ParseSortOrder(c.prefixes).value, render, Unpinned(r))
  {
    SortedAndPrioritisedSpec(ParseSortOrder(c.prefixes).value, render, s);
  }

  // ---------------------------------------------------------------------------
  // SortCommandParser

  /** The prefixes the parser accepts, one attribute each; the tag prefix is not among them. */
  predicate IsParsablePrefix(s: string) {
    s == NamePrefix || s == PhonePrefix || s == EmailPrefix || s == AddressPrefix
  }

  /** parse: the trimmed arguments must be exactly one of the accepted prefixes. */
  function ParseSort(args: string): (r: Result<SortCommand, string>)
    ensures r.Ok? <==> IsParsablePrefix(Trim(args))
    ensures r.Ok? ==> r.value.prefixes == [Trim(args)]
    ensures r.Err? ==> r.error == MessageSortUnsuccessful
  {
    var trimmedArgs := Trim(args);
    if trimmedArgs == NamePrefix then Ok(SortCommand([NamePrefix]))
    else if trimmedArgs == PhonePrefix then Ok(SortCommand([PhonePrefix]))
    else if trimmedArgs == EmailPrefix then Ok(SortCommand([EmailPrefix]))
    else if trimmedArgs == AddressPrefix then Ok(SortCommand([AddressPrefix]))
    else Err(MessageSortUnsuccessful)
  }

  /**
   * Every command the parser builds holds one prefix, which sortBy accepts:
   * its execute always sorts by that single attribute and never throws.
   */
  lemma ParsedSortSucceeds(args: string)
    requires ParseSort(args).Ok?
    ensures |ParseSort(args).value.prefixes| == 1
    ensures NewSortCommand(ParseSort(args).value.prefixes).Ok?
    ensures ParseSortOrder(ParseSort(args).value.prefixes).Ok?
    ensures ParseSortOrder(ParseSort(args).value.prefixes).value.Single?
    ensures ParseSortOrder(ParseSort(args).value.prefixes).value.field != TagsField
  {
  }

  /** Leading and trailing spaces never change what the parser returns. */
  lemma ParseSortIgnoresPadding(lead: string, args: string, trail: string)
    requires forall i :: 0 <= i < |lead| ==> IsTrimmable(lead[i])
    requires forall i :: 0 <= i < |trail| ==> IsTrimmable(trail[i])
    ensures ParseSort(lead + args + trail) == ParseSort(args)
  {
    TrimIgnoresPadding(lead, args, trail);
  }

  /** Each attribute but the tags is reachable from its own prefix. */
  lemma ParseSortOfPrefix(f: SortField)
    requires f != TagsField
    ensures ParseSort(PrefixOf(f)) == Ok(SortCommand([PrefixOf(f)]))
  {
    TrimUnpadded(PrefixOf(f));
  }
}
