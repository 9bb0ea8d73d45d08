/** How the two validators relate. */
module Variants {
  import opened Model
  import SrcValidator
  import RootValidator

  /** The src failure list is the root one followed by the temporal rule's entry. */
  lemma SrcFailuresExtendRoot(t: TodoTask)
    ensures SrcValidator.Failures(t)
         == RootValidator.Failures(t) + (if t.started < t.completed then [] else [StartedNotBeforeCompleted])
  {
  }

  /** Every task the src validator accepts, the root validator accepts. */
  lemma SrcValidImpliesRootValid(t: TodoTask)
    requires SrcValidator.IsValid(t)
    ensures RootValidator.IsValid(t)
  {
  }

  /** The two differ exactly on tasks with non-empty strings and Started >= Completed. */
  lemma ValidatorsDiffer(t: TodoTask)
    ensures RootValidator.IsValid(t) && !SrcValidator.IsValid(t) <==> RootValidator.IsValid(t) && t.completed <= t.started
  {
  }

  /** A concrete task that only the root validator accepts. */
  lemma RootAcceptsReversedTimestamps()
    ensures
      var t := TodoTask("", "T", "D", "A", MaxValue, MinValue, MinValue);
      RootValidator.IsValid(t) && !SrcValidator.IsValid(t)
  {
    var t := TodoTask("", "T", "D", "A", MaxValue, MinValue, MinValue);
    NonBlankIsNotEmpty(t.title, 0);
    NonBlankIsNotEmpty(t.details, 0);
    NonBlankIsNotEmpty(t.author, 0);
  }
}
