/** The task record shared by both variants of the service, and the value-level
    facts about its fields: timestamps as ticks, FluentValidation's notion of an
    empty string, the text form of a Guid, and the failure entries a request can
    be rejected with. */
module Model {

  /** DateTime.MinValue and DateTime.MaxValue, in ticks of 100 ns. */
  const MinValue: int := 0
  const MaxValue: int := 3155378975999999999

  /** A DateTime, as its tick count. */
  type Ticks = t: int | MinValue <= t <= MaxValue

  /** One row of the Tasks table, and the JSON body of a request. */
  datatype TodoTask = TodoTask(
    id: string,
    title: string,
    details: string,
    author: string,
    started: Ticks,
    completed: Ticks,
    lastModified: Ticks)

  datatype Option<T> = None | Some(value: T)

  /** DateTime.Compare: the sign of the difference of the tick counts. */
  function Compare(a: Ticks, b: Ticks): (c: int)
    ensures c in {-1, 0, 1}
    ensures c < 0 <==> a < b
    ensures c == 0 <==> a == b
    ensures c > 0 <==> b < a
  {
    if a < b then -1 else if a == b then 0 else 1
  }

  /** char.IsWhiteSpace: the Unicode space separators, line and paragraph
      separators, and the control characters U+0009 to U+000D and U+0085. */
  predicate IsWhiteSpace(c: char)
  {
    || ('\U{0009}' <= c <= '\U{000D}')
    || c == '\U{0020}' || c == '\U{0085}' || c == '\U{00A0}' || c == '\U{1680}'
    || ('\U{2000}' <= c <= '\U{200A}')
    || c == '\U{2028}' || c == '\U{2029}' || c == '\U{202F}' || c == '\U{205F}' || c == '\U{3000}'
  }

  /** What FluentValidation's NotEmpty() accepts for a string: one that is not
      string.IsNullOrWhiteSpace. */
  predicate NotEmpty(s: string)
  {
    exists i :: 0 <= i < |s| && !IsWhiteSpace(s[i])
  }

  lemma EmptyStringIsEmpty()
    ensures !NotEmpty("")
  {
  }

  lemma WhiteSpaceOnlyIsEmpty(s: string)
    requires forall i :: 0 <= i < |s| ==> IsWhiteSpace(s[i])
    ensures !NotEmpty(s)
  {
  }

  /** A string with a character that is not white space is accepted. */
  lemma NonBlankIsNotEmpty(s: string, i: nat)
    requires i < |s| && !IsWhiteSpace(s[i])
    ensures NotEmpty(s)
  {
  }

  predicate IsLowerHexDigit(c: char)
  {
    ('0' <= c <= '9') || ('a' <= c <= 'f')
  }

  /** The text Guid.ToString() produces: 32 lower-case hex digits in groups
      of 8-4-4-4-12 separated by hyphens. */
  predicate IsGuidString(s: string)
  {
    && |s| == 36
    && (forall i :: 0 <= i < |s| ==>
          if i == 8 || i == 13 || i == 18 || i == 23 then s[i] == '-' else IsLowerHexDigit(s[i]))
  }

  /** A generated id is never the empty id a client sends in a new task. */
  lemma GuidIsNotEmpty(s: string)
    requires IsGuidString(s)
    ensures s != "" && NotEmpty(s)
  {
    assert !IsWhiteSpace(s[0]);
  }

  /** The message both variants give when the generated id is already taken. */
  const DuplicateIdMessage: string := "A task with this id already exists"

  /** One entry of a validation failure list. The first four are the rules of the
      validators; DuplicateId is the failure the create handler of the src variant
      builds by hand, with its property name and message. */
  datatype Failure =
    | TitleEmpty
    | DetailsEmpty
    | AuthorEmpty
    | StartedNotBeforeCompleted
    | DuplicateId(propertyName: string, errorMessage: string)
}
