/**
 * Index: a position in the displayed list, held zero-based and shown one-based.
 * The Index class itself is not part of this model beyond these two views.
 */
module Indexes {

  datatype Index = Index(zeroBased: nat) {
    /** getOneBased */
    function OneBased(): (n: nat)
      ensures n >= 1 && n - 1 == zeroBased
    {
      zeroBased + 1
    }
  }

  /** Index.fromOneBased, for a positive one-based position. */
  function FromOneBased(oneBased: nat): (i: Index)
    requires oneBased >= 1
    ensures i.OneBased() == oneBased
  {
    Index(oneBased - 1)
  }
}
