/**
 * PersonContainsKeywordsPredicate: a person matches when, for some enabled
 * field, some keyword matches that field's value.
 */
module KeywordsPredicates {
  import opened Persons

  /**
   * StringUtil.containsPhraseIgnoreCase and StringUtil.isSimilar (a Levenshtein
   * distance test) are not part of this model; they are passed in as these two
   * functions and the properties below hold whatever they are.
   */
  datatype Matchers = Matchers(
    containsPhraseIgnoreCase: (string, string) -> bool,
    isSimilar: (string, string, int) -> bool)

  /** The edit-distance threshold of the fuzzy match. */
  const SimilarityThreshold: int := 2

  /** The five searchable fields. */
  datatype Field = NameField | PhoneField | EmailField | AddressField | TagField

  datatype KeywordsPredicate = KeywordsPredicate(
    keywords: seq<string>,
    isSearchByName: bool,
    isSearchByPhone: bool,
    isSearchByEmail: bool,
    isSearchByAddress: bool,
    isSearchByTags: bool)
  {
    predicate Enabled(f: Field) {
      match f
      case NameField => isSearchByName
      case PhoneField => isSearchByPhone
      case EmailField => isSearchByEmail
      case AddressField => isSearchByAddress
      case TagField => isSearchByTags
    }
  }

  /** keywords.stream().anyMatch(test) */
  predicate AnyKeyword(keywords: seq<string>, test: string -> bool) {
    |keywords| > 0 && (test(keywords[0]) || AnyKeyword(keywords[1..], test))
  }

  lemma {:induction false} AnyKeywordIff(keywords: seq<string>, test: string -> bool)
    ensures AnyKeyword(keywords, test) <==> exists i :: 0 <= i < |keywords| && test(keywords[i])
  {
    if |keywords| > 0 {
      AnyKeywordIff(keywords[1..], test);
      if AnyKeyword(keywords[1..], test) {
        var i :| 0 <= i < |keywords[1..]| && test(keywords[1..][i]);
        assert test(keywords[i + 1]);
      }
      if exists i :: 0 <= i < |keywords| && test(keywords[i]) {
        var i :| 0 <= i < |keywords| && test(keywords[i]);
        if i > 0 {
          assert test(keywords[1..][i - 1]);
        }
      }
    }
  }

  /** The private `matches`: a phrase match or a fuzzy match within the threshold. */
  predicate Matches(keywords: seq<string>, m: Matchers, fieldValue: string) {
    AnyKeyword(keywords, keyword =>
      m.containsPhraseIgnoreCase(fieldValue, keyword) || m.isSimilar(fieldValue, keyword, SimilarityThreshold))
  }

  /** The phone test: a phrase match only, no fuzzy match. */
  predicate PhoneMatches(keywords: seq<string>, m: Matchers, phone: string) {
    AnyKeyword(keywords, keyword => m.containsPhraseIgnoreCase(phone, keyword))
  }

  /** The tag test: some tag name contains some keyword. */
  predicate TagsMatch(keywords: seq<string>, m: Matchers, tags: set<string>) {
    exists tag | tag in tags :: AnyKeyword(keywords, keyword => m.containsPhraseIgnoreCase(tag, keyword))
  }

  /** PersonContainsKeywordsPredicate.test */
  predicate Test(pred: KeywordsPredicate, m: Matchers, p: Person) {
    || (pred.isSearchByName && Matches(pred.keywords, m, p.name))
    || (pred.isSearchByPhone && PhoneMatches(pred.keywords, m, p.phone))
    || (pred.isSearchByEmail && Matches(pred.keywords, m, p.email))
    || (pred.isSearchByAddress && Matches(pred.keywords, m, p.address))
    || (pred.isSearchByTags && TagsMatch(pred.keywords, m, p.tags))
  }

  // ---------------------------------------------------------------------------
  // A reference definition: some keyword matches some enabled field.

  /** Whether the keyword at hand matches field f of p, by the field's own rule. */
  predicate KeywordMatchesField(m: Matchers, f: Field, p: Person, keyword: string) {
    match f
    case NameField => m.containsPhraseIgnoreCase(p.name, keyword) || m.isSimilar(p.name, keyword, SimilarityThreshold)
    case PhoneField => m.containsPhraseIgnoreCase(p.phone, keyword)
    case EmailField => m.containsPhraseIgnoreCase(p.email, keyword) || m.isSimilar(p.email, keyword, SimilarityThreshold)
    case AddressField =>
      m.containsPhraseIgnoreCase(p.address, keyword) || m.isSimilar(p.address, keyword, SimilarityThreshold)
    case TagField => exists tag | tag in p.tags :: m.containsPhraseIgnoreCase(tag, keyword)
  }

  ghost predicate SomeFieldMatches(pred: KeywordsPredicate, m: Matchers, p: Person) {
    exists f: Field, i :: pred.Enabled(f) && 0 <= i < |pred.keywords| && KeywordMatchesField(m, f, p, pred.keywords[i])
  }

  /** The test `test` applies to one field. */
  predicate FieldTest(keywords: seq<string>, m: Matchers, f: Field, p: Person) {
    match f
    case NameField => Matches(keywords, m, p.name)
    case PhoneField => PhoneMatches(keywords, m, p.phone)
    case EmailField => Matches(keywords, m, p.email)
    case AddressField => Matches(keywords, m, p.address)
    case TagField => TagsMatch(keywords, m, p.tags)
  }

  /** One field's test holds exactly when some keyword matches that field. */
  lemma FieldTestIff(keywords: seq<string>, m: Matchers, f: Field, p: Person)
    ensures FieldTest(keywords, m, f, p) <==> exists i :: 0 <= i < |keywords| && KeywordMatchesField(m, f, p, keywords[i])
  {
    match f
    case NameField =>
      AnyKeywordIff(keywords, keyword =>
        m.containsPhraseIgnoreCase(p.name, keyword) || m.isSimilar(p.name, keyword, SimilarityThreshold));
    case PhoneField =>
      AnyKeywordIff(keywords, keyword => m.containsPhraseIgnoreCase(p.phone, keyword));
    case EmailField =>
      AnyKeywordIff(keywords, keyword =>
        m.containsPhraseIgnoreCase(p.email, keyword) || m.isSimilar(p.email, keyword, SimilarityThreshold));
    case AddressField =>
      AnyKeywordIff(keywords, keyword =>
        m.containsPhraseIgnoreCase(p.address, keyword) || m.isSimilar(p.address, keyword, SimilarityThreshold));
    case TagField =>
      forall tag | tag in p.tags {
        AnyKeywordIff(keywords, keyword => m.containsPhraseIgnoreCase(tag, keyword));
      }
      if TagsMatch(keywords, m, p.tags) {
        var tag :| tag in p.tags && AnyKeyword(keywords, keyword => m.containsPhraseIgnoreCase(tag, keyword));
        var i :| 0 <= i < |keywords| && m.containsPhraseIgnoreCase(tag, keywords[i]);
        assert KeywordMatchesField(m, f, p, keywords[i]);
      }
      if exists i :: 0 <= i < |keywords| && KeywordMatchesField(m, f, p, keywords[i]) {
        var i :| 0 <= i < |keywords| && KeywordMatchesField(m, f, p, keywords[i]);
        var tag :| tag in p.tags && m.containsPhraseIgnoreCase(tag, keywords[i]);
        assert AnyKeyword(keywords, keyword => m.containsPhraseIgnoreCase(tag, keyword));
      }
  }

  /** `test` is exactly the disjunction, over the enabled fields, of "some keyword matches that field". */
  lemma TestIsDisjunction(pred: KeywordsPredicate, m: Matchers, p: Person)
    ensures Test(pred, m, p) <==> SomeFieldMatches(pred, m, p)
  {
    var ks := pred.keywords;
    assert Test(pred, m, p) <==> exists f: Field :: pred.Enabled(f) && FieldTest(ks, m, f, p) by {
      if Test(pred, m, p) {
        if pred.isSearchByName && Matches(ks, m, p.name) {
          assert pred.Enabled(NameField) && FieldTest(ks, m, NameField, p);
        } else if pred.isSearchByPhone && PhoneMatches(ks, m, p.phone) {
          assert pred.Enabled(PhoneField) && FieldTest(ks, m, PhoneField, p);
        } else if pred.isSearchByEmail && Matches(ks, m, p.email) {
          assert pred.Enabled(EmailField) && FieldTest(ks, m, EmailField, p);
        } else if pred.isSearchByAddress && Matches(ks, m, p.address) {
          assert pred.Enabled(AddressField) && FieldTest(ks, m, AddressField, p);
        } else {
          assert pred.Enabled(TagField) && FieldTest(ks, m, TagField, p);
        }
      }
    }
    forall f: Field {
      FieldTestIff(ks, m, f, p);
    }
  }

  /** With every search flag off, nobody matches. */
  lemma NoFieldsMatchesNobody(pred: KeywordsPredicate, m: Matchers, p: Person)
    requires !pred.isSearchByName && !pred.isSearchByPhone && !pred.isSearchByEmail
    requires !pred.isSearchByAddress && !pred.isSearchByTags
    ensures !Test(pred, m, p)
  {
  }

  /** With no keywords, nobody matches, whichever fields are enabled. */
  lemma NoKeywordsMatchesNobody(pred: KeywordsPredicate, m: Matchers, p: Person)
    requires pred.keywords == []
    ensures !Test(pred, m, p)
  {
    TestIsDisjunction(pred, m, p);
  }

  /** Phone is matched by phrase containment alone: the fuzzy matcher is never consulted for it. */
  lemma PhoneIgnoresSimilarity(pred: KeywordsPredicate, m: Matchers, m': Matchers, p: Person)
    requires pred.isSearchByPhone
    requires !pred.isSearchByName && !pred.isSearchByEmail && !pred.isSearchByAddress && !pred.isSearchByTags
    requires m'.containsPhraseIgnoreCase == m.containsPhraseIgnoreCase
    ensures Test(pred, m, p) <==> Test(pred, m', p)
  {
  }

  /**
   * Widening a search never loses a match: adding keywords (every old keyword
   * is still there) or enabling more fields keeps every person that matched.
   */
  lemma WiderSearchKeepsMatches(pred: KeywordsPredicate, wider: KeywordsPredicate, m: Matchers, p: Person)
    requires forall i :: 0 <= i < |pred.keywords| ==> pred.keywords[i] in wider.keywords
    requires forall f: Field :: pred.Enabled(f) ==> wider.Enabled(f)
    requires Test(pred, m, p)
    ensures Test(wider, m, p)
  {
    TestIsDisjunction(pred, m, p);
    TestIsDisjunction(wider, m, p);
    var f: Field, i :| pred.Enabled(f) && 0 <= i < |pred.keywords| && KeywordMatchesField(m, f, p, pred.keywords[i]);
    var j :| 0 <= j < |wider.keywords| && wider.keywords[j] == pred.keywords[i];
    assert wider.Enabled(f) && KeywordMatchesField(m, f, p, wider.keywords[j]);
  }
}
