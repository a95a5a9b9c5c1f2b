/** Pure input checks run by the endpoints before any write. */
module Validation {
  import opened Wrappers
  import opened JsStrings
  import opened Schema

  /** The `{ valid, error? }` object every validator returns. */
  datatype Verdict = Verdict(valid: bool, error: Option<string>)

  const Ok := Verdict(true, None)

  function Invalid(message: string): Verdict {
    Verdict(false, Some(message))
  }

  /** Limits on the raw input, in UTF-16 code units. */
  const MaxTitleLength := 200
  const MaxDescriptionLength := 2000

  const EmptyTitle := "Title cannot be empty"
  const TitleTooLong := "Title cannot exceed 200 characters"
  const DescriptionTooLong := "Description cannot exceed 2000 characters"
  const BadDueDate := "Invalid due date"

  /**
   * A title needs a character that `trim` keeps and at most 200 code units counted on
   * the raw string, before trimming; emptiness is reported first.
   */
  function ValidateTitle(title: string): (r: Verdict)
    ensures r.valid <==> HasNonWhitespace(title) && Utf16Length(title) <= MaxTitleLength
    ensures r.error.Some? <==> !r.valid
    ensures !HasNonWhitespace(title) ==> r.error == Some(EmptyTitle)
    ensures HasNonWhitespace(title) && Utf16Length(title) > MaxTitleLength ==> r.error == Some(TitleTooLong)
  {
    TrimEmptyIff(title);
    if |title| == 0 || |Trim(title)| == 0 then Invalid(EmptyTitle)
    else if Utf16Length(title) > MaxTitleLength then Invalid(TitleTooLong)
    else Ok
  }

  /** A description may be empty; only its raw length, in code units, is limited. */
  function ValidateDescription(description: string): (r: Verdict)
    ensures r.valid <==> Utf16Length(description) <= MaxDescriptionLength
    ensures r.error.Some? <==> !r.valid
    ensures !r.valid ==> r.error == Some(DescriptionTooLong)
  {
    if Utf16Length(description) > MaxDescriptionLength then Invalid(DescriptionTooLong) else Ok
  }

  /** An absent due date is fine; a present one must not be negative. */
  function ValidateDueDate(dueDate: Option<int>): (r: Verdict)
    ensures r.valid <==> dueDate.None? || dueDate.value >= 0
    ensures r.error.Some? <==> !r.valid
    ensures !r.valid ==> r.error == Some(BadDueDate)
  {
    if dueDate.None? then Ok
    else if dueDate.value < 0 then Invalid(BadDueDate)
    else Ok
  }

  /** Membership in the literal list of priorities: exactly the strings some `Priority` is stored as. */
  predicate IsValidPriority(s: string)
    ensures IsValidPriority(s) <==> exists p: Priority :: PriorityName(p) == s
  {
    assert PriorityName(Low) == "low" && PriorityName(Medium) == "medium" && PriorityName(High) == "high";
    s in ["low", "medium", "high"]
  }

  /** Membership in the literal list of statuses: exactly the strings some `Status` is stored as. */
  predicate IsValidStatus(s: string)
    ensures IsValidStatus(s) <==> exists t: Status :: StatusName(t) == s
  {
    assert StatusName(Todo) == "todo" && StatusName(InProgress) == "in-progress" && StatusName(Done) == "done";
    s in ["todo", "in-progress", "done"]
  }

  /** The boundary cases: empty and blank titles fail, 200 code units pass and 201 fail. */
  lemma {:induction false} TitleBoundaries()
    ensures ValidateTitle("") == Invalid(EmptyTitle)
    ensures ValidateTitle("   ") == Invalid(EmptyTitle)
    ensures ValidateTitle(seq(200, _ => 'x')).valid
    ensures ValidateTitle(seq(201, _ => 'x')) == Invalid(TitleTooLong)
  {
    var s200 := seq(200, _ => 'x');
    var s201 := seq(201, _ => 'x');
    assert !IsWhitespace(s200[0]) && !IsWhitespace(s201[0]);
    Utf16LengthBounds(s200);
    Utf16LengthBounds(s201);
  }

  /** The limit counts code units: 100 supplementary-plane characters pass, 101 do not. */
  lemma {:induction false} TitleCountsCodeUnits()
    ensures ValidateTitle(seq(100, _ => '\U{1F680}')).valid
    ensures ValidateTitle(seq(101, _ => '\U{1F680}')) == Invalid(TitleTooLong)
  {
    var a := seq(100, _ => '\U{1F680}');
    var b := seq(101, _ => '\U{1F680}');
    assert !IsWhitespace(a[0]) && !IsWhitespace(b[0]);
    AllAstralLength(a);
    AllAstralLength(b);
  }

  lemma {:induction false} AllAstralLength(s: string)
    requires forall i :: 0 <= i < |s| ==> s[i] as int >= 0x1_0000
    ensures Utf16Length(s) == 2 * |s|
    decreases |s|
  {
    if |s| > 0 {
      AllAstralLength(s[1..]);
    }
  }

  /** Blankness wins over length: a white-space-only title over the limit reports the empty-title error. */
  lemma {:induction false} BlankTitleReportsEmpty(n: nat)
    requires n > MaxTitleLength
    ensures ValidateTitle(seq(n, _ => ' ')) == Invalid(EmptyTitle)
  {
  }

  /** The empty description is valid. */
  lemma {:induction false} EmptyDescriptionValid()
    ensures ValidateDescription("") == Ok
  {
  }

  /** The due-date boundary: absent and 0 pass, -1 fails. */
  lemma {:induction false} DueDateBoundaries()
    ensures ValidateDueDate(None) == Ok
    ensures ValidateDueDate(Some(0)) == Ok
    ensures ValidateDueDate(Some(-1)) == Invalid(BadDueDate)
  {
  }
}
