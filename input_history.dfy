/**
 * InputHistory: the most recent command inputs, newest first, at most
 * MaxHistorySize of them.
 */
module InputHistories {

  const MaxHistorySize: nat := 20

  function Min(a: int, b: int): int {
    if a <= b then a else b
  }

  /**
   * The history after one more input: the input goes to the front and, when
   * the history was full, the oldest entry (the last) is dropped.
   */
  function AddedInput(h: seq<string>, commandInput: string): (r: seq<string>)
    requires |h| <= MaxHistorySize
    ensures |r| == Min(|h| + 1, MaxHistorySize) && |r| >= |h|
    ensures r[0] == commandInput
    ensures r[1..] == h[..|r| - 1]
  {
    if |h| == MaxHistorySize then [commandInput] + h[..MaxHistorySize - 1] else [commandInput] + h
  }

  /** The history left by entering the inputs xs, oldest first, into an empty history. */
  function HistoryOf(xs: seq<string>): (h: seq<string>)
    ensures |h| <= MaxHistorySize
  {
    if xs == [] then [] else AddedInput(HistoryOf(xs[..|xs| - 1]), xs[|xs| - 1])
  }

  /**
   * The history holds the last MaxHistorySize inputs (or all of them, when
   * fewer were entered), most recent first.
   */
  lemma {:induction false} HistoryOfIsRecentInputs(xs: seq<string>)
    ensures |HistoryOf(xs)| == Min(|xs|, MaxHistorySize)
    ensures forall k :: 0 <= k < |HistoryOf(xs)| ==> HistoryOf(xs)[k] == xs[|xs| - 1 - k]
  {
    if xs != [] {
      var init := xs[..|xs| - 1];
      HistoryOfIsRecentInputs(init);
      var h := HistoryOf(xs);
      forall k | 0 <= k < |h|
        ensures h[k] == xs[|xs| - 1 - k]
      {
        if k > 0 {
          assert h[k] == h[1..][k - 1] == HistoryOf(init)[k - 1];
        }
      }
    }
  }

  class InputHistory {
    /** pastCommands, newest first */
    var pastCommands: seq<string>

    ghost predicate Valid()
      reads this
    {
      |pastCommands| <= MaxHistorySize
    }

    /** The constructor: an empty history. */
    constructor()
      ensures Valid() && pastCommands == []
    {
      pastCommands := [];
    }

    /** addInput */
    method AddInput(commandInput: string)
      requires Valid()
      modifies this
      ensures Valid()
      ensures pastCommands == AddedInput(old(pastCommands), commandInput)
    {
      if |pastCommands| == MaxHistorySize {
        pastCommands := pastCommands[..MaxHistorySize - 1];
      }
      pastCommands := [commandInput] + pastCommands;
    }

    /** getPastCommands: the read-only view of the history. */
    function GetPastCommands(): (r: seq<string>)
      reads this
      requires Valid()
      ensures |r| <= MaxHistorySize && r == pastCommands
    {
      pastCommands
    }
  }
}
