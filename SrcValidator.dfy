/** The validator of the src variant: Title, Details and Author must pass
    NotEmpty(), and DateTime.Compare(Started, Completed) must be less than 0.
    Every rule is checked, in declaration order, and each failed rule adds one
    entry to the failure list. */
module SrcValidator {
  import opened Model

  predicate IsValid(t: TodoTask)
  {
    NotEmpty(t.title) && NotEmpty(t.details) && NotEmpty(t.author) && Compare(t.started, t.completed) < 0
  }

  function Failures(t: TodoTask): (fs: seq<Failure>)
    ensures fs == [] <==> IsValid(t)
    ensures IsValid(t) <==> NotEmpty(t.title) && NotEmpty(t.details) && NotEmpty(t.author) && t.started < t.completed
    ensures TitleEmpty in fs <==> !NotEmpty(t.title)
    ensures DetailsEmpty in fs <==> !NotEmpty(t.details)
    ensures AuthorEmpty in fs <==> !NotEmpty(t.author)
    ensures StartedNotBeforeCompleted in fs <==> t.completed <= t.started
    ensures forall f :: f in fs ==> !f.DuplicateId?
    ensures |fs| <= 4
  {
    (if NotEmpty(t.title) then [] else [TitleEmpty])
    + (if NotEmpty(t.details) then [] else [DetailsEmpty])
    + (if NotEmpty(t.author) then [] else [AuthorEmpty])
    + (if Compare(t.started, t.completed) < 0 then [] else [StartedNotBeforeCompleted])
  }

  /** A task with equal timestamps is rejected: the rule is strict. */
  lemma EqualTimestampsRejected(t: TodoTask)
    requires t.started == t.completed
    ensures !IsValid(t) && StartedNotBeforeCompleted in Failures(t)
  {
  }

  /** The rules read neither Id nor LastModified. */
  lemma IgnoresIdAndLastModified(t: TodoTask, id: string, lastModified: Ticks)
    ensures Failures(t.(id := id, lastModified := lastModified)) == Failures(t)
    ensures IsValid(t.(id := id, lastModified := lastModified)) == IsValid(t)
  {
  }
}
