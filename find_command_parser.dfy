/**
 * FindCommandParser: reads the fields to search and the keywords of a find.
 * Keywords are the text between pairs of double quotes in the value of each
 * field prefix; with no prefix at all, the search is by name and the
 * keywords are the words of the preamble.
 */
module FindCommandParsers {
  import opened Results
  import opened Text
  import opened PersonOrder
  import KP = KeywordsPredicates
  import opened Commands
  import opened FindCommands

  /**
   * The tokenized arguments (ArgumentMultimap, whose tokenizer is not part of
   * this model): the text before the first prefix, and for each prefix that
   * occurs the value getValue returns for it.
   */
  datatype ArgumentMultimap = ArgumentMultimap(preamble: string, values: map<string, string>)

  const Quote: char := '"'

  // ---------------------------------------------------------------------------
  // The pattern "([^"]+)" and Matcher.find

  /** The first double quote at or after pos. */
  function NextQuote(s: string, pos: nat): (r: Option<nat>)
    requires pos <= |s|
    ensures r.Some? ==> pos <= r.value < |s| && s[r.value] == Quote
    ensures forall k :: pos <= k < |s| && (r.None? || k < r.value) ==> s[k] != Quote
    decreases |s| - pos
  {
    if pos == |s| then None
    else if s[pos] == Quote then Some(pos)
    else NextQuote(s, pos + 1)
  }

  /** A match of the pattern: the positions of its opening and closing quotes. */
  datatype QuotedMatch = QuotedMatch(open: nat, close: nat)

  /** The match is a quote, at least one non-quote character, and a quote. */
  predicate IsQuotedAt(s: string, m: QuotedMatch) {
    && m.open + 1 < m.close < |s|
    && s[m.open] == Quote && s[m.close] == Quote
    && forall k :: m.open < k < m.close ==> s[k] != Quote
  }

  /**
   * Matcher.find from pos: the leftmost match. An opening quote directly
   * followed by another quote cannot start one, so the search resumes at the
   * second quote.
   */
  function FindQuoted(s: string, pos: nat): (m: Option<QuotedMatch>)
    requires pos <= |s|
    ensures m.Some? ==> pos <= m.value.open && IsQuotedAt(s, m.value)
    ensures NextQuote(s, pos).None? ==> m.None?
    decreases |s| - pos
  {
    match NextQuote(s, pos)
    case None => None
    case Some(open) =>
      match NextQuote(s, open + 1)
      case None => None
      case Some(close) =>
        if close == open + 1 then FindQuoted(s, open + 1) else Some(QuotedMatch(open, close))
  }

  /** Group 1 of every match from pos on, in order. */
  function QuotedKeywords(s: string, pos: nat): seq<string>
    requires pos <= |s|
    decreases |s| - pos
  {
    match FindQuoted(s, pos)
    case None => []
    case Some(m) => [s[m.open + 1..m.close]] + QuotedKeywords(s, m.close + 1)
  }

  /** The keyword k stands between two double quotes at position i of s. */
  predicate QuotedAt(k: string, s: string, i: nat) {
    i + |k| + 2 <= |s| && s[i..i + |k| + 2] == [Quote] + k + [Quote]
  }

  /** The keyword k occurs in s between two double quotes. */
  ghost predicate IsQuotedIn(k: string, s: string) {
    exists i: nat :: QuotedAt(k, s, i)
  }

  /** Every extracted keyword is non-empty, holds no double quote, and stood between quotes in s. */
  lemma {:induction false} QuotedKeywordsWellFormed(s: string, pos: nat)
    requires pos <= |s|
    ensures forall j :: 0 <= j < |QuotedKeywords(s, pos)| ==>
      var k := QuotedKeywords(s, pos)[j];
      k != [] && Quote !in k && IsQuotedIn(k, s)
    decreases |s| - pos
  {
    match FindQuoted(s, pos)
    case None =>
    case Some(m) =>
      QuotedKeywordsWellFormed(s, m.close + 1);
      var k := s[m.open + 1..m.close];
      assert m.open + |k| + 2 == m.close + 1;
      assert s[m.open..m.close + 1] == [s[m.open]] + k + [s[m.close]];
      assert QuotedAt(k, s, m.open);
      assert Quote !in k by {
        forall i | 0 <= i < |k| ensures k[i] != Quote {
          assert k[i] == s[m.open + 1 + i];
        }
      }
      var ks, rest := QuotedKeywords(s, pos), QuotedKeywords(s, m.close + 1);
      assert ks == [k] + rest;
      forall j | 0 <= j < |ks|
        ensures ks[j] != [] && Quote !in ks[j] && IsQuotedIn(ks[j], s)
      {
        if j > 0 {
          assert ks[j] == rest[j - 1];
        }
      }
  }

  /** A value without double quotes contributes no keyword. */
  lemma NoQuoteNoKeywords(s: string)
    requires Quote !in s
    ensures QuotedKeywords(s, 0) == []
  {
    assert NextQuote(s, 0).None?;
  }

  /**
   * The keywords ks, each between double quotes, interleaved with the
   * separators seps: seps[0] "ks[0]" seps[1] ... "ks[n-1]" seps[n].
   */
  function QuoteAll(ks: seq<string>, seps: seq<string>): string
    requires |seps| == |ks| + 1
  {
    if ks == [] then seps[0]
    else seps[0] + [Quote] + ks[0] + [Quote] + QuoteAll(ks[1..], seps[1..])
  }

  /** The first double quote at or after pos is the one at q. */
  lemma NextQuoteAt(s: string, pos: nat, q: nat)
    requires pos <= q < |s| && s[q] == Quote
    requires forall i :: pos <= i < q ==> s[i] != Quote
    ensures NextQuote(s, pos) == Some(q)
  {
  }

  /** No character of x is a double quote. */
  predicate QuoteFree(x: string) {
    forall j :: 0 <= j < |x| ==> x[j] != Quote
  }

  /** Text from pos on without a double quote holds no match. */
  lemma NoQuoteFrom(s: string, pos: nat, sep: string)
    requires QuoteFree(sep) && pos <= |s| && s[pos..] == sep
    ensures QuotedKeywords(s, pos) == []
  {
    assert forall i :: pos <= i < |s| ==> s[i] == sep[i - pos];
    assert NextQuote(s, pos).None?;
  }

  /** Matcher.find from pos finds the quote pair at open and close. */
  lemma FindQuotedAt(s: string, pos: nat, open: nat, close: nat)
    requires pos <= open && open + 1 < close < |s|
    requires s[open] == Quote && s[close] == Quote
    requires forall i :: pos <= i < open ==> s[i] != Quote
    requires forall i :: open < i < close ==> s[i] != Quote
    ensures FindQuoted(s, pos) == Some(QuotedMatch(open, close))
  {
    NextQuoteAt(s, pos, open);
    NextQuoteAt(s, open + 1, close);
  }

  /** When the first match from pos is at open and close, the search goes on at next. */
  lemma FirstMatchAt(s: string, pos: nat, open: nat, close: nat, next: nat)
    requires pos <= |s| && open < close < |s| && next == close + 1
    requires FindQuoted(s, pos) == Some(QuotedMatch(open, close))
    ensures QuotedKeywords(s, pos) == [s[open + 1..close]] + QuotedKeywords(s, next)
  {
  }

  /** Where the quotes of sep "k" rest lie once it is placed at pos of s. */
  lemma QuotedLayout(s: string, pos: nat, sep: string, k: string, rest: string, open: nat, close: nat, next: nat)
    requires QuoteFree(sep) && QuoteFree(k)
    requires pos <= |s| && s[pos..] == sep + [Quote] + k + [Quote] + rest
    requires open == pos + |sep| && close == open + |k| + 1 && next == close + 1
    ensures next <= |s| && s[open] == Quote && s[close] == Quote
    ensures forall i :: pos <= i < open ==> s[i] != Quote
    ensures forall i :: open < i < close ==> s[i] != Quote
    ensures s[open + 1..close] == k
    ensures s[next..] == rest
  {
    var t := sep + [Quote] + k + [Quote] + rest;
    assert forall i :: pos <= i < |s| ==> s[i] == t[i - pos];
    assert forall i :: 0 <= i < |sep| ==> t[i] == sep[i];
    assert forall i :: 0 <= i < |k| ==> t[|sep| + 1 + i] == k[i];
    assert t[|sep| + 1..|sep| + |k| + 1] == k;
    assert t[|sep| + |k| + 2..] == rest;
  }

  /** Quote-free text, a quoted keyword and the rest: the keyword is the first match. */
  lemma FirstQuotedFrom(s: string, pos: nat, sep: string, k: string, rest: string, next: nat)
    requires QuoteFree(sep) && k != [] && QuoteFree(k)
    requires pos <= |s| && s[pos..] == sep + [Quote] + k + [Quote] + rest
    requires next == pos + |sep| + |k| + 2
    ensures next <= |s| && s[next..] == rest
    ensures QuotedKeywords(s, pos) == [k] + QuotedKeywords(s, next)
  {
    var open := pos + |sep|;
    var close := open + |k| + 1;
    QuotedLayout(s, pos, sep, k, rest, open, close, next);
    FindQuotedAt(s, pos, open, close);
    FirstMatchAt(s, pos, open, close, next);
  }

  /** Keywords quoted from position pos on are read back in order. */
  lemma {:induction false} QuotedKeywordsFrom(s: string, pos: nat, ks: seq<string>, seps: seq<string>)
    requires |seps| == |ks| + 1
    requires forall i :: 0 <= i < |ks| ==> ks[i] != [] && QuoteFree(ks[i])
    requires forall i :: 0 <= i < |seps| ==> QuoteFree(seps[i])
    requires pos <= |s| && s[pos..] == QuoteAll(ks, seps)
    ensures QuotedKeywords(s, pos) == ks
    decreases |ks|
  {
    if ks == [] {
      NoQuoteFrom(s, pos, seps[0]);
    } else {
      var next := pos + |seps[0]| + |ks[0]| + 2;
      FirstQuotedFrom(s, pos, seps[0], ks[0], QuoteAll(ks[1..], seps[1..]), next);
      QuotedKeywordsFrom(s, next, ks[1..], seps[1..]);
      assert ks == [ks[0]] + ks[1..];
    }
  }

  /**
   * Any number of non-empty, quote-free keywords, each put between double
   * quotes and separated by any quote-free text, are read back in order.
   */
  lemma QuotedKeywordRoundTrip(ks: seq<string>, seps: seq<string>)
    requires |seps| == |ks| + 1
    requires forall i :: 0 <= i < |ks| ==> ks[i] != [] && Quote !in ks[i]
    requires forall i :: 0 <= i < |seps| ==> Quote !in seps[i]
    ensures QuotedKeywords(QuoteAll(ks, seps), 0) == ks
  {
    var s := QuoteAll(ks, seps);
    assert s[0..] == s;
    QuotedKeywordsFrom(s, 0, ks, seps);
  }

  // ---------------------------------------------------------------------------
  // extractKeywords and parse

  /** What extractKeywords appends for one prefix. */
  function Extracted(a: ArgumentMultimap, prefix: string): seq<string> {
    if prefix in a.values && a.values[prefix] != [] then QuotedKeywords(a.values[prefix], 0) else []
  }

  /**
   * extractKeywords: when the prefix is present with a non-empty value, every
   * match of the pattern in that value is appended to the keywords.
   */
  method ExtractKeywords(a: ArgumentMultimap, prefix: string, isPresent: bool, keywords: seq<string>)
    returns (r: seq<string>)
    requires isPresent == (prefix in a.values)
    ensures r == keywords + Extracted(a, prefix)
  {
    r := keywords;
    if isPresent && a.values[prefix] != [] {
      var input := a.values[prefix];
      var pos := 0;
      var found := FindQuoted(input, pos);
      while found.Some?
        invariant pos <= |input|
        invariant found == FindQuoted(input, pos)
        invariant r + QuotedKeywords(input, pos) == keywords + QuotedKeywords(input, 0)
        decreases |input| - pos
      {
        var m := found.value;
        r := r + [input[m.open + 1..m.close]];
        pos := m.close + 1;
        found := FindQuoted(input, pos);
      }
    }
  }

  /** Whether any of the five field prefixes occurs. */
  predicate AnyPrefix(a: ArgumentMultimap) {
    NamePrefix in a.values || PhonePrefix in a.values || EmailPrefix in a.values
    || AddressPrefix in a.values || TagPrefix in a.values
  }

  /** The keywords parse collects: the quoted ones per prefix, or the preamble's words when no prefix occurs. */
  function FindKeywords(a: ArgumentMultimap): seq<string> {
    if AnyPrefix(a) then
      Extracted(a, NamePrefix) + Extracted(a, PhonePrefix) + Extracted(a, EmailPrefix)
      + Extracted(a, AddressPrefix) + Extracted(a, TagPrefix)
    else if Trim(a.preamble) != [] then Words(Trim(a.preamble))
    else []
  }

  /** What parse returns: the predicate on the collected keywords, or the usage error when there are none. */
  function FindSpec(a: ArgumentMultimap): Result<FindCommand, string> {
    var keywords := FindKeywords(a);
    if keywords == [] then Err(MessageInvalidCommandFormat + FindCommands.MessageUsage)
    else Ok(FindCommand(KP.KeywordsPredicate(keywords,
      NamePrefix in a.values || !AnyPrefix(a), PhonePrefix in a.values, EmailPrefix in a.values,
      AddressPrefix in a.values, TagPrefix in a.values)))
  }

  /** With no prefix, extractKeywords adds nothing. */
  lemma NothingExtracted(a: ArgumentMultimap)
    requires !AnyPrefix(a)
    ensures Extracted(a, NamePrefix) + Extracted(a, PhonePrefix) + Extracted(a, EmailPrefix)
      + Extracted(a, AddressPrefix) + Extracted(a, TagPrefix) == []
  {
  }

  /** parse */
  method Parse(a: ArgumentMultimap) returns (r: Result<FindCommand, string>)
    ensures r == FindSpec(a)
  {
    var searchName := NamePrefix in a.values;
    var searchPhone := PhonePrefix in a.values;
    var searchEmail := EmailPrefix in a.values;
    var searchAddress := AddressPrefix in a.values;
    var searchTags := TagPrefix in a.values;
    var keywords: seq<string> := [];
    keywords := ExtractKeywords(a, NamePrefix, searchName, keywords);
    assert keywords == Extracted(a, NamePrefix);
    keywords := ExtractKeywords(a, PhonePrefix, searchPhone, keywords);
    keywords := ExtractKeywords(a, EmailPrefix, searchEmail, keywords);
    keywords := ExtractKeywords(a, AddressPrefix, searchAddress, keywords);
    keywords := ExtractKeywords(a, TagPrefix, searchTags, keywords);
    if !searchName && !searchPhone && !searchEmail && !searchAddress && !searchTags {
      NothingExtracted(a);
      searchName := true;
      var preamble := Trim(a.preamble);
      if preamble != [] {
        keywords := Words(preamble);
      }
    }
    assert keywords == FindKeywords(a);
    if keywords == [] {
      return Err(MessageInvalidCommandFormat + FindCommands.MessageUsage);
    }
    r := Ok(FindCommand(KP.KeywordsPredicate(keywords, searchName, searchPhone, searchEmail, searchAddress, searchTags)));
  }

  // ---------------------------------------------------------------------------
  // Properties of parse

  /**
   * A successful parse searches exactly the fields whose prefix occurs (the
   * name alone when none does), with non-empty keywords.
   */
  lemma FindSpecFlags(a: ArgumentMultimap)
    requires FindSpec(a).Ok?
    ensures var p := FindSpec(a).value.searchPredicate;
      && p.keywords != []
      && (AnyPrefix(a) ==> p.isSearchByName == (NamePrefix in a.values))
      && (!AnyPrefix(a) ==> p.isSearchByName && !p.isSearchByPhone && !p.isSearchByEmail && !p.isSearchByAddress && !p.isSearchByTags)
      && p.isSearchByPhone == (PhonePrefix in a.values)
      && p.isSearchByEmail == (EmailPrefix in a.values)
      && p.isSearchByAddress == (AddressPrefix in a.values)
      && p.isSearchByTags == (TagPrefix in a.values)
  {
  }

  /** With a prefix present, every keyword is non-empty, holds no double quote, and stood between quotes in some prefix value. */
  lemma FindKeywordsQuoted(a: ArgumentMultimap)
    requires AnyPrefix(a)
    ensures forall j :: 0 <= j < |FindKeywords(a)| ==>
      var k := FindKeywords(a)[j];
      && k != [] && Quote !in k
      && exists prefix :: prefix in a.values && IsQuotedIn(k, a.values[prefix])
  {
    var prefixes := [NamePrefix, PhonePrefix, EmailPrefix, AddressPrefix, TagPrefix];
    forall i | 0 <= i < 5
      ensures forall j :: 0 <= j < |Extracted(a, prefixes[i])| ==>
        var k := Extracted(a, prefixes[i])[j];
        && k != [] && Quote !in k
        && exists prefix :: prefix in a.values && IsQuotedIn(k, a.values[prefix])
    {
      var p := prefixes[i];
      if p in a.values && a.values[p] != [] {
        QuotedKeywordsWellFormed(a.values[p], 0);
      }
    }
    var ks := FindKeywords(a);
    forall j | 0 <= j < |ks|
      ensures ks[j] != [] && Quote !in ks[j]
      ensures exists prefix :: prefix in a.values && IsQuotedIn(ks[j], a.values[prefix])
    {
      var e0, e1, e2, e3, e4 := Extracted(a, prefixes[0]), Extracted(a, prefixes[1]), Extracted(a, prefixes[2]),
        Extracted(a, prefixes[3]), Extracted(a, prefixes[4]);
      assert ks == e0 + e1 + e2 + e3 + e4;
      if j < |e0| {
        assert ks[j] == e0[j];
      } else if j < |e0| + |e1| {
        assert ks[j] == e1[j - |e0|];
      } else if j < |e0| + |e1| + |e2| {
        assert ks[j] == e2[j - |e0| - |e1|];
      } else if j < |e0| + |e1| + |e2| + |e3| {
        assert ks[j] == e3[j - |e0| - |e1| - |e2|];
      } else {
        assert ks[j] == e4[j - |e0| - |e1| - |e2| - |e3|];
      }
    }
  }

  /** With no prefix, the keywords are the whitespace-separated words of the trimmed preamble. */
  lemma FindByPreamble(a: ArgumentMultimap)
    requires !AnyPrefix(a)
    ensures FindSpec(a).Ok? <==> exists i :: 0 <= i < |a.preamble| && !IsTrimmable(a.preamble[i])
    ensures FindSpec(a).Ok? ==> FindSpec(a).value.searchPredicate.keywords == Words(Trim(a.preamble))
  {
    PreambleKeywords(a);
    TrimEmptyIff(a.preamble);
  }

  /** With no prefix, there are keywords exactly when the trimmed preamble is not empty, and they are its words. */
  lemma PreambleKeywords(a: ArgumentMultimap)
    requires !AnyPrefix(a)
    ensures FindKeywords(a) == [] <==> Trim(a.preamble) == []
    ensures Trim(a.preamble) != [] ==> FindKeywords(a) == Words(Trim(a.preamble))
  {
    if Trim(a.preamble) != [] {
      TrimmedEnds(a.preamble);
      WordsNonEmpty(Trim(a.preamble), 0);
    }
  }
}
