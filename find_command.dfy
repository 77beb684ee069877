/**
 * FindCommand: shows the persons that a keywords predicate accepts and
 * reports how many there are.
 */
module FindCommands {
  import opened Text
  import opened Persons
  import KP = KeywordsPredicates
  import opened Models

  const CommandWord: string := "find"

  const MessageUsage: string :=
    CommandWord + ": Finds all persons whose specified fields contain any of "
    + "the given keywords (case-insensitive) and displays them as a list with index numbers.\n"
    + "Parameters: [n/\"NAME\"] [p/\"PHONE\"] [e/\"EMAIL\"]"
    + " [a/\"ADDRESS\"] [t/\"TAG\"] \"KEYWORD\" [\"MORE_KEYWORDS\"]...\n"
    + "Use double quotation marks (\") around multi-word inputs or single keywords to ensure correct parsing.\n"
    + "Example: " + CommandWord + " n/\"Alice\" \"Bob\" p/\"98765432\" a/\"Bedok Central\" t/\"close friend\""

  const MessagePersonsListedSuffix: string := " persons listed!"

  datatype FindCommand = FindCommand(searchPredicate: KP.KeywordsPredicate)

  /** MESSAGE_PERSONS_LISTED_OVERVIEW, "%1$d persons listed!", applied to a count. */
  function PersonsListed(count: nat): (msg: string)
    ensures |msg| > |MessagePersonsListedSuffix|
    ensures msg[|msg| - |MessagePersonsListedSuffix|..] == MessagePersonsListedSuffix
    ensures var digits := msg[..|msg| - |MessagePersonsListedSuffix|];
      IsDigits(digits) && DigitsValue(digits) == count
  {
    NatToStringRoundTrip(count);
    var msg := NatToString(count) + MessagePersonsListedSuffix;
    assert msg[..|msg| - |MessagePersonsListedSuffix|] == NatToString(count);
    msg
  }

  /**
   * execute: installs the predicate on the displayed list and reports the
   * number of persons now shown. The book is neither changed nor saved.
   */
  method Execute(c: FindCommand, model: ModelManager) returns (feedback: string)
    requires model.Valid()
    modifies model
    ensures model.Valid()
    ensures model.currentPredicate == Keywords(c.searchPredicate)
    ensures model.predicateHistory == old(model.predicateHistory) + [old(model.currentPredicate)]
    ensures model.GetFilteredPersonList() == Filter(model.Persons(), Keywords(c.searchPredicate), model.matchers)
    ensures feedback == PersonsListed(|model.GetFilteredPersonList()|)
    ensures model.book.State() == old(model.book.State())
  {
    model.UpdateFilteredPersonList(Keywords(c.searchPredicate));
    feedback := PersonsListed(|model.GetFilteredPersonList()|);
  }

  /** A find whose predicate enables no field, or has no keyword, shows nobody. */
  lemma FindNothing(c: FindCommand, m: KP.Matchers, s: seq<Person>)
    requires c.searchPredicate.keywords == [] || forall f :: !c.searchPredicate.Enabled(f)
    ensures forall x :: x !in Filter(s, Keywords(c.searchPredicate), m)
  {
    forall x
      ensures !KP.Test(c.searchPredicate, m, x)
    {
      if c.searchPredicate.keywords == [] {
        KP.NoKeywordsMatchesNobody(c.searchPredicate, m, x);
      } else {
        assert !c.searchPredicate.Enabled(KP.NameField) && !c.searchPredicate.Enabled(KP.PhoneField);
        assert !c.searchPredicate.Enabled(KP.EmailField) && !c.searchPredicate.Enabled(KP.AddressField);
        assert !c.searchPredicate.Enabled(KP.TagField);
        KP.NoFieldsMatchesNobody(c.searchPredicate, m, x);
      }
    }
  }
}
