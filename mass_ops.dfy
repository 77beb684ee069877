/**
 * MassOpsIndexParser: reads the argument of a mass operation, either spaced
 * indexes ("1 2  3") or a range ("9 - 99"), into a set of indexes.
 */
module MassOps {
  import opened Results
  import opened Text
  import opened Indexes

  /** The most indexes one mass operation may name. */
  const MaxOperationsSize: nat := 100

  /** System.lineSeparator(), taken to be a single line feed. */
  const LineSeparator: string := "\n"

  const MessageRangeIndexConstraint: string := "Start index should be less than or equal to end index."
  const MessageRangeConstraint: string := "Number of specified indices should not exceed 100 indexes."
  const MessageMassOpsConstraints: string :=
    "Constraints:" + LineSeparator
    + "1. Index should be a non-zero integer." + LineSeparator
    + " Valid index formats: 1, 2, 3, ..., 2147483647" + LineSeparator
    + "2. " + MessageRangeIndexConstraint + LineSeparator
    + "3. " + MessageRangeConstraint

  /** The three ways the parse can fail, each with its own message. */
  datatype MassOpsError = InvalidIndex | InvalidRangeOrder | RangeSizeExceeded {
    function Message(): (s: string)
      ensures |s| > |MessageMassOpsConstraints|
      ensures s[|s| - |MessageMassOpsConstraints|..] == MessageMassOpsConstraints
    {
      match this
      case InvalidIndex => "Invalid mass-ops indexes specified." + LineSeparator + MessageMassOpsConstraints
      case InvalidRangeOrder => "Start index should not be greater than end index." + LineSeparator + MessageMassOpsConstraints
      case RangeSizeExceeded => "Number of specified indexes exceeded limit." + LineSeparator + MessageMassOpsConstraints
    }
  }

  // ---------------------------------------------------------------------------
  // The two patterns

  /** SPACED_INDEX_PATTERN matches the whole of t: digit runs separated by \s runs. */
  predicate IsSpacedForm(t: string) {
    && |t| > 0
    && IsDigit(t[0]) && IsDigit(t[|t| - 1])
    && forall i :: 0 <= i < |t| ==> IsDigit(t[i]) || IsRegexSpace(t[i])
  }

  /** The length of the run of digits at the front of u. */
  function LeadingDigits(u: string): (n: nat)
    ensures n <= |u| && IsDigits(u[..n])
    ensures n < |u| ==> !IsDigit(u[n])
  {
    if u == [] || !IsDigit(u[0]) then 0
    else
      var n := 1 + LeadingDigits(u[1..]);
      assert forall i :: 1 <= i < n ==> u[..n][i] == u[1..][..n - 1][i - 1];
      n
  }

  /** The length of the run of digits at the end of v. */
  function TrailingDigits(v: string): (n: nat)
    ensures n <= |v| && IsDigits(v[|v| - n..])
    ensures n < |v| ==> !IsDigit(v[|v| - n - 1])
  {
    if v == [] || !IsDigit(v[|v| - 1]) then 0
    else
      var w := v[..|v| - 1];
      var n := 1 + TrailingDigits(w);
      assert v[|v| - n..] == w[|w| - (n - 1)..] + [v[|v| - 1]];
      n
  }

  predicate AllRegexSpace(u: string) {
    forall i :: 0 <= i < |u| ==> IsRegexSpace(u[i])
  }

  /** The position of the first '-' in t, or -1. */
  function DashAt(t: string): (k: int)
    ensures -1 <= k < |t|
    ensures k == -1 ==> forall i :: 0 <= i < |t| ==> t[i] != '-'
    ensures k >= 0 ==> t[k] == '-' && forall i :: 0 <= i < k ==> t[i] != '-'
  {
    if t == [] then -1
    else if t[0] == '-' then 0
    else
      var k := DashAt(t[1..]);
      if k == -1 then -1 else k + 1
  }

  /**
   * RANGE_INDEX_PATTERN matches the whole of t: a digit run, optional \s, the
   * dash, optional \s, a digit run.
   */
  predicate IsRangeForm(t: string) {
    var k := DashAt(t);
    && k >= 0
    && 0 < LeadingDigits(t[..k]) && AllRegexSpace(t[..k][LeadingDigits(t[..k])..])
    && 0 < TrailingDigits(t[k + 1..]) && AllRegexSpace(t[k + 1..][..|t[k + 1..]| - TrailingDigits(t[k + 1..])])
  }

  /** The groups startIndex and endIndex of a range. */
  function RangeGroups(t: string): (g: (string, string))
    requires IsRangeForm(t)
    ensures |g.0| > 0 && IsDigits(g.0) && |g.1| > 0 && IsDigits(g.1)
  {
    var k := DashAt(t);
    var left, right := t[..k], t[k + 1..];
    (left[..LeadingDigits(left)], right[|right| - TrailingDigits(right)..])
  }

  /** The two patterns never both match, as the parser assumes. */
  lemma FormsExclusive(t: string)
    ensures !(IsSpacedForm(t) && IsRangeForm(t))
  {
    var k := DashAt(t);
    if k >= 0 {
      assert !IsDigit(t[k]) && !IsRegexSpace(t[k]);
    }
  }

  // ---------------------------------------------------------------------------
  // Spaced indexes

  /** The indexes named by the tokens, all of which are valid positive integers. */
  function TokenIndexes(ws: seq<string>): set<Index> {
    set w | w in ws && IsNonZeroUnsignedInteger(w) :: Index(DigitsValue(w) - 1)
  }

  /**
   * parseSpacedIndexes: the tokens of t as ParserUtil.parseIndexes reads them
   * (each must be a positive int; duplicates collapse), at most MaxOperationsSize
   * distinct ones.
   */
  function SpacedIndexes(t: string): Result<set<Index>, MassOpsError> {
    var ws := Words(t);
    if exists k :: 0 <= k < |ws| && !IsNonZeroUnsignedInteger(ws[k]) then Err(InvalidIndex)
    else if |TokenIndexes(ws)| > MaxOperationsSize then Err(RangeSizeExceeded)
    else Ok(TokenIndexes(ws))
  }

  // ---------------------------------------------------------------------------
  // Ranged indexes

  /** The one-based positions start..end, as indexes. */
  function RangeSet(start: nat, end: int): (r: set<Index>)
    requires start >= 1
    ensures forall x :: x in r <==> start <= x.OneBased() <= end
    decreases end - start
  {
    if end < start then {} else RangeSet(start, end - 1) + {Index(end - 1)}
  }

  /** A range of positions names end - start + 1 indexes. */
  lemma {:induction false} RangeSetSize(start: nat, end: int)
    requires 1 <= start && start - 1 <= end
    ensures |RangeSet(start, end)| == end - start + 1
    decreases end - start
  {
    if end >= start {
      RangeSetSize(start, end - 1);
      assert Index(end - 1) !in RangeSet(start, end - 1);
    }
  }

  /** validateRangedIndex */
  function ValidateRangedIndex(oneBasedStart: int, oneBasedEnd: int): (r: Outcome<MassOpsError>)
    ensures r.Pass? <==> oneBasedStart <= oneBasedEnd && oneBasedEnd - oneBasedStart + 1 <= MaxOperationsSize
  {
    if oneBasedStart > oneBasedEnd then Fail(InvalidRangeOrder)
    else if oneBasedEnd - oneBasedStart + 1 > MaxOperationsSize then Fail(RangeSizeExceeded)
    else Pass
  }

  /** What parseRangedIndexes returns for a range. */
  function RangedIndexes(t: string): Result<set<Index>, MassOpsError>
    requires IsRangeForm(t)
  {
    var (a, b) := RangeGroups(t);
    if !IsNonZeroUnsignedInteger(a) || !IsNonZeroUnsignedInteger(b) then Err(InvalidIndex)
    else
      match ValidateRangedIndex(DigitsValue(a), DigitsValue(b))
      case Fail(e) => Err(e)
      case Pass => Ok(RangeSet(DigitsValue(a), DigitsValue(b)))
  }

  /** parseRangedIndexes: adds start..end one at a time, stopping at Integer.MAX_VALUE. */
  method ParseRangedIndexes(t: string) returns (r: Result<set<Index>, MassOpsError>)
    requires IsRangeForm(t)
    ensures r == RangedIndexes(t)
  {
    var (startString, endString) := RangeGroups(t);
    if !IsNonZeroUnsignedInteger(startString) || !IsNonZeroUnsignedInteger(endString) {
      return Err(InvalidIndex);
    }
    var oneBasedStart := DigitsValue(startString);
    var oneBasedEnd := DigitsValue(endString);
    var valid := ValidateRangedIndex(oneBasedStart, oneBasedEnd);
    if valid.Fail? {
      return Err(valid.error);
    }
    var indexes: set<Index> := {};
    var i := oneBasedStart;
    while i <= oneBasedEnd
      invariant oneBasedStart <= i <= oneBasedEnd + 1
      invariant indexes == RangeSet(oneBasedStart, i - 1)
      decreases oneBasedEnd - i
    {
      indexes := indexes + {Index(i - 1)};
      if i == IntMax {
        break;
      }
      assert i < IntMax;   // so i + 1 does not overflow an int
      i := i + 1;
    }
    r := Ok(indexes);
  }

  // ---------------------------------------------------------------------------
  // parseIndexes

  /** What parseIndexes returns for args. */
  function ParseIndexesSpec(args: string): Result<set<Index>, MassOpsError> {
    var t := Trim(args);
    if IsSpacedForm(t) then SpacedIndexes(t)
    else if IsRangeForm(t) then RangedIndexes(t)
    else Err(InvalidIndex)
  }

  /** parseIndexes: leading and trailing blanks are ignored; either form is accepted. */
  method ParseIndexes(args: string) returns (r: Result<set<Index>, MassOpsError>)
    ensures r == ParseIndexesSpec(args)
  {
    var t := Trim(args);
    var isSpacedMatch := IsSpacedForm(t);
    var isRangedMatch := IsRangeForm(t);
    if !isSpacedMatch && !isRangedMatch {
      return Err(InvalidIndex);
    }
    if isSpacedMatch {
      FormsExclusive(t);
      return SpacedIndexes(t);
    }
    r := ParseRangedIndexes(t);
  }

  /** A string of digits and \s characters splits into digit tokens. */
  lemma {:induction false} WordsAreDigits(s: string)
    requires forall i :: 0 <= i < |s| ==> IsDigit(s[i]) || IsRegexSpace(s[i])
    ensures forall k :: 0 <= k < |Words(s)| ==> IsDigits(Words(s)[k])
    decreases |s|
  {
    if s != [] {
      if IsRegexSpace(s[0]) {
        WordsAreDigits(s[1..]);
      } else {
        var n := WordLength(s);
        WordsAreDigits(s[n..]);
        assert Words(s) == [s[..n]] + Words(s[n..]);
      }
    }
  }

  /**
   * Whatever parseIndexes accepts is a non-empty set of at most
   * MaxOperationsSize indexes, each a positive int when read one-based.
   */
  lemma ParseIndexesBounds(args: string)
    ensures var r := ParseIndexesSpec(args);
      r.Ok? ==>
        && 0 < |r.value| <= MaxOperationsSize
        && forall x :: x in r.value ==> 1 <= x.OneBased() <= IntMax
  {
    var t := Trim(args);
    if IsSpacedForm(t) {
      SpacedBounds(t);
    } else if IsRangeForm(t) {
      RangedBounds(t);
    }
  }

  /** The bounds of ParseIndexesBounds for the spaced form. */
  lemma SpacedBounds(t: string)
    requires IsSpacedForm(t)
    ensures SpacedIndexes(t).Ok? ==>
      && 0 < |SpacedIndexes(t).value| <= MaxOperationsSize
      && forall x :: x in SpacedIndexes(t).value ==> 1 <= x.OneBased() <= IntMax
  {
    var ws := Words(t);
    WordsNonEmpty(t, 0);
    if SpacedIndexes(t).Ok? {
      assert Index(DigitsValue(ws[0]) - 1) in TokenIndexes(ws);
    }
  }

  /** The bounds of ParseIndexesBounds for the range form. */
  lemma RangedBounds(t: string)
    requires IsRangeForm(t)
    ensures RangedIndexes(t).Ok? ==>
      && 0 < |RangedIndexes(t).value| <= MaxOperationsSize
      && forall x :: x in RangedIndexes(t).value ==> 1 <= x.OneBased() <= IntMax
  {
    var (a, b) := RangeGroups(t);
    if RangedIndexes(t).Ok? {
      RangeSetSize(DigitsValue(a), DigitsValue(b));
    }
  }

  /** A range start-end within the limits names exactly the positions start..end. */
  lemma RangeNamesItsPositions(t: string)
    requires IsRangeForm(t)
    ensures var (a, b) := RangeGroups(t);
      RangedIndexes(t).Ok? ==>
        && |RangedIndexes(t).value| == DigitsValue(b) - DigitsValue(a) + 1
        && forall x :: x in RangedIndexes(t).value <==> DigitsValue(a) <= x.OneBased() <= DigitsValue(b)
  {
    var (a, b) := RangeGroups(t);
    if RangedIndexes(t).Ok? {
      RangeSetSize(DigitsValue(a), DigitsValue(b));
    }
  }
}
