/** The validator of the root variant: only the three NotEmpty() rules, on
    Title, Details and Author. No rule reads the timestamps. */
module RootValidator {
  import opened Model

  predicate IsValid(t: TodoTask)
  {
    NotEmpty(t.title) && NotEmpty(t.details) && NotEmpty(t.author)
  }

  function Failures(t: TodoTask): (fs: seq<Failure>)
    ensures fs == [] <==> IsValid(t)
    ensures TitleEmpty in fs <==> !NotEmpty(t.title)
    ensures DetailsEmpty in fs <==> !NotEmpty(t.details)
    ensures AuthorEmpty in fs <==> !NotEmpty(t.author)
    ensures StartedNotBeforeCompleted !in fs
    ensures forall f :: f in fs ==> !f.DuplicateId?
    ensures |fs| <= 3
  {
    (if NotEmpty(t.title) then [] else [TitleEmpty])
    + (if NotEmpty(t.details) then [] else [DetailsEmpty])
    + (if NotEmpty(t.author) then [] else [AuthorEmpty])
  }

  /** The rules read only Title, Details and Author: changing any other field,
      the timestamps included, does not change the outcome. */
  lemma IgnoresOtherFields(t: TodoTask, id: string, started: Ticks, completed: Ticks, lastModified: Ticks)
    ensures Failures(t.(id := id, started := started, completed := completed, lastModified := lastModified))
         == Failures(t)
  {
  }
}
