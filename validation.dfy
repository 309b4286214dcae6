/** The request-body validator: five per-field checks, each a function from
    one JavaScript value to "valid" or "invalid with a message", and the
    aggregate check that collects every failing message in field order. */
module Validation {
  import opened Text
  import opened Results

  /** A JavaScript value as it can arrive in a parsed request body. Numbers
      are integers here; `Object` stands for arrays and objects. */
  datatype JsValue = Undefined | Null | Bool(b: bool) | Num(n: int) | Str(s: string) | Object

  /** JavaScript truthiness: `undefined`, `null`, `false`, `0` and `""` are falsy. */
  predicate Truthy(v: JsValue) {
    match v
    case Undefined => false
    case Null => false
    case Bool(b) => b
    case Num(n) => n != 0
    case Str(s) => s != ""
    case Object => true
  }

  /** The result of one field check: `{isValid: true}` or `{isValid: false, error}`. */
  datatype Check = Valid | Invalid(error: string)

  /** The candidate record a request body carries; an omitted field is `Undefined`. */
  datatype BugInput = BugInput(
    title: JsValue,
    description: JsValue,
    status: JsValue,
    priority: JsValue,
    reporter: JsValue)

  /** The aggregate result `{isValid, errors}`. */
  datatype BugValidation = BugValidation(isValid: bool, errors: seq<string>)

  const MaxTitleLength := 200
  const MaxReporterLength := 100

  const ValidStatuses: seq<string> := ["open", "in-progress", "resolved", "closed"]
  const ValidPriorities: seq<string> := ["low", "medium", "high", "critical"]

  const TitleRequired := "Title is required and must be a string"
  const TitleEmpty := "Title cannot be empty"
  const TitleTooLong := "Title cannot exceed 200 characters"
  const DescriptionRequired := "Description is required and must be a string"
  const DescriptionEmpty := "Description cannot be empty"
  const StatusRequired := "Status is required and must be a string"
  const StatusNotAllowed := "Status must be one of: " + "open, in-progress, resolved, closed"
  const PriorityNotString := "Priority must be a string"
  const PriorityNotAllowed := "Priority must be one of: " + "low, medium, high, critical"
  const ReporterRequired := "Reporter is required and must be a string"
  const ReporterEmpty := "Reporter name cannot be empty"
  const ReporterTooLong := "Reporter name cannot exceed 100 characters"

  function ValidateTitle(title: JsValue): (r: Check)
    ensures r.Valid? <==> title.Str? && HasContent(title.s) && |Trim(title.s)| <= MaxTitleLength
    ensures !Truthy(title) || !title.Str? ==> r == Invalid(TitleRequired)
    ensures title.Str? && title.s != "" && !HasContent(title.s) ==> r == Invalid(TitleEmpty)
    ensures title.Str? && |Trim(title.s)| > MaxTitleLength ==> r == Invalid(TitleTooLong)
  {
    if !Truthy(title) || !title.Str? then Invalid(TitleRequired)
    else
      var trimmed := Trim(title.s);
      if |trimmed| == 0 then Invalid(TitleEmpty)
      else if |trimmed| > MaxTitleLength then Invalid(TitleTooLong)
      else Valid
  }

  function ValidateDescription(description: JsValue): (r: Check)
    ensures r.Valid? <==> description.Str? && HasContent(description.s)
    ensures !Truthy(description) || !description.Str? ==> r == Invalid(DescriptionRequired)
    ensures description.Str? && description.s != "" && !HasContent(description.s) ==> r == Invalid(DescriptionEmpty)
  {
    if !Truthy(description) || !description.Str? then Invalid(DescriptionRequired)
    else if |Trim(description.s)| == 0 then Invalid(DescriptionEmpty)
    else Valid
  }

  function ValidateStatus(status: JsValue): (r: Check)
    ensures r.Valid? <==> status.Str? && ToLower(status.s) in ValidStatuses
    ensures !Truthy(status) || !status.Str? ==> r == Invalid(StatusRequired)
    ensures r.Invalid? && status.Str? && status.s != "" ==> r == Invalid(StatusNotAllowed)
  {
    if !Truthy(status) || !status.Str? then Invalid(StatusRequired)
    else if ToLower(status.s) !in ValidStatuses then Invalid(StatusNotAllowed)
    else Valid
  }

  function ValidatePriority(priority: JsValue): (r: Check)
    ensures !Truthy(priority) ==> r == Valid
    ensures Truthy(priority) && !priority.Str? ==> r == Invalid(PriorityNotString)
    ensures Truthy(priority) && priority.Str? ==>
      (r.Valid? <==> ToLower(priority.s) in ValidPriorities)
    ensures r.Invalid? && priority.Str? ==> r == Invalid(PriorityNotAllowed)
  {
    if Truthy(priority) && !priority.Str? then Invalid(PriorityNotString)
    else if Truthy(priority) && ToLower(priority.s) !in ValidPriorities then Invalid(PriorityNotAllowed)
    else Valid
  }

  function ValidateReporter(reporter: JsValue): (r: Check)
    ensures r.Valid? <==> reporter.Str? && HasContent(reporter.s) && |Trim(reporter.s)| <= MaxReporterLength
    ensures !Truthy(reporter) || !reporter.Str? ==> r == Invalid(ReporterRequired)
    ensures reporter.Str? && reporter.s != "" && !HasContent(reporter.s) ==> r == Invalid(ReporterEmpty)
    ensures reporter.Str? && |Trim(reporter.s)| > MaxReporterLength ==> r == Invalid(ReporterTooLong)
  {
    if !Truthy(reporter) || !reporter.Str? then Invalid(ReporterRequired)
    else
      var trimmed := Trim(reporter.s);
      if |trimmed| == 0 then Invalid(ReporterEmpty)
      else if |trimmed| > MaxReporterLength then Invalid(ReporterTooLong)
      else Valid
  }

  /** The message a failed check contributes, none for a passed one. */
  function Failures(c: Check): seq<string> {
    if c.Valid? then [] else [c.error]
  }

  /** The fields of a bug, in the order the aggregate check visits them. */
  datatype Field = Title | Description | Status | Priority | Reporter

  function Rank(f: Field): nat {
    match f
    case Title => 0
    case Description => 1
    case Status => 2
    case Priority => 3
    case Reporter => 4
  }

  /** Title and description are always checked; the others only when truthy. */
  predicate Checked(b: BugInput, f: Field) {
    match f
    case Title => true
    case Description => true
    case Status => Truthy(b.status)
    case Priority => Truthy(b.priority)
    case Reporter => Truthy(b.reporter)
  }

  function CheckOf(b: BugInput, f: Field): Check {
    match f
    case Title => ValidateTitle(b.title)
    case Description => ValidateDescription(b.description)
    case Status => ValidateStatus(b.status)
    case Priority => ValidatePriority(b.priority)
    case Reporter => ValidateReporter(b.reporter)
  }

  /** The field a validator message is about, read from its first word
      (each field's messages start with a different capital letter). */
  function Owner(m: string): Option<Field> {
    if m == [] then None
    else if m[0] == 'T' then Some(Title)
    else if m[0] == 'D' then Some(Description)
    else if m[0] == 'S' then Some(Status)
    else if m[0] == 'P' then Some(Priority)
    else if m[0] == 'R' then Some(Reporter)
    else None
  }

  /** Field `f` is unchecked or acceptable, stated on the raw value. */
  predicate FieldAcceptable(b: BugInput, f: Field) {
    match f
    case Title =>
      b.title.Str? && HasContent(b.title.s) && |Trim(b.title.s)| <= MaxTitleLength
    case Description =>
      b.description.Str? && HasContent(b.description.s)
    case Status =>
      Truthy(b.status) ==> b.status.Str? && ToLower(b.status.s) in ValidStatuses
    case Priority =>
      Truthy(b.priority) ==> b.priority.Str? && ToLower(b.priority.s) in ValidPriorities
    case Reporter =>
      Truthy(b.reporter) ==>
        b.reporter.Str? && HasContent(b.reporter.s) && |Trim(b.reporter.s)| <= MaxReporterLength
  }

  /** Every field that is checked passes its check: the condition, stated on
      the raw values, under which the aggregate check reports no error. */
  predicate Acceptable(b: BugInput) {
    && FieldAcceptable(b, Title) && FieldAcceptable(b, Description) && FieldAcceptable(b, Status)
    && FieldAcceptable(b, Priority) && FieldAcceptable(b, Reporter)
  }

  /** The message field `f` contributes: none when it is not checked or passes. */
  function FieldErrors(b: BugInput, f: Field): (r: seq<string>)
    ensures |r| <= 1
    ensures r == [] <==> !Checked(b, f) || CheckOf(b, f).Valid?
    ensures r == [] <==> FieldAcceptable(b, f)
  {
    if Checked(b, f) then Failures(CheckOf(b, f)) else []
  }

  /** The messages `validateBug` collects: each failing check's message, in
      the order title, description, status, priority, reporter, with status,
      priority and reporter checked only when truthy. */
  function Errors(b: BugInput): (r: seq<string>)
    ensures |r| <= 5
    ensures r == [] <==> Acceptable(b)
  {
    FieldErrors(b, Title) + FieldErrors(b, Description) + FieldErrors(b, Status)
    + FieldErrors(b, Priority) + FieldErrors(b, Reporter)
  }

  /** `validateBug`: runs the checks one after another and pushes each
      failing message onto `errors`, without stopping at the first. */
  method ValidateBug(bugData: BugInput) returns (r: BugValidation)
    ensures r.errors == Errors(bugData)
    ensures r.isValid <==> r.errors == []
  {
    var errors: seq<string> := [];

    var titleValidation := ValidateTitle(bugData.title);
    if titleValidation.Invalid? {
      errors := errors + [titleValidation.error];
    }
    ghost var afterTitle := errors;
    assert afterTitle == FieldErrors(bugData, Title);

    var descriptionValidation := ValidateDescription(bugData.description);
    if descriptionValidation.Invalid? {
      errors := errors + [descriptionValidation.error];
    }
    ghost var afterDescription := errors;
    assert afterDescription == afterTitle + FieldErrors(bugData, Description);

    if Truthy(bugData.status) {
      var statusValidation := ValidateStatus(bugData.status);
      if statusValidation.Invalid? {
        errors := errors + [statusValidation.error];
      }
    }
    ghost var afterStatus := errors;
    assert afterStatus == afterDescription + FieldErrors(bugData, Status);

    if Truthy(bugData.priority) {
      var priorityValidation := ValidatePriority(bugData.priority);
      if priorityValidation.Invalid? {
        errors := errors + [priorityValidation.error];
      }
    }
    ghost var afterPriority := errors;
    assert afterPriority == afterStatus + FieldErrors(bugData, Priority);

    if Truthy(bugData.reporter) {
      var reporterValidation := ValidateReporter(bugData.reporter);
      if reporterValidation.Invalid? {
        errors := errors + [reporterValidation.error];
      }
    }
    assert errors == afterPriority + FieldErrors(bugData, Reporter);

    r := BugValidation(|errors| == 0, errors);
  }

  /** Every message in `part` is about field `f`. */
  predicate OwnedBy(part: seq<string>, f: Field) {
    forall m | m in part :: Owner(m) == Some(f)
  }

  /** Every message in `e` is about a field that comes before `f`. */
  predicate Before(e: seq<string>, f: Field) {
    forall m | m in e :: Owner(m).Some? && Rank(Owner(m).value) < Rank(f)
  }

  /** Every message in `e` is about some field, and the fields strictly
      increase along `e`: at most one message per field, in field order. */
  predicate InFieldOrder(e: seq<string>) {
    && (forall m | m in e :: Owner(m).Some?)
    && (forall i, j | 0 <= i < j < |e| :: Rank(Owner(e[i]).value) < Rank(Owner(e[j]).value))
  }

  /** Field `f` has a message in `e`. */
  predicate Reported(e: seq<string>, f: Field) {
    exists m | m in e :: Owner(m) == Some(f)
  }

  /** The message a field check produces is about that field. */
  lemma FieldErrorsOwned(b: BugInput, f: Field)
    ensures OwnedBy(FieldErrors(b, f), f)
  {
    assert TitleRequired[0] == TitleEmpty[0] == TitleTooLong[0] == 'T';
    assert DescriptionRequired[0] == DescriptionEmpty[0] == 'D';
    assert StatusRequired[0] == 'S';
    assert StatusNotAllowed[0] == 'S';
    assert PriorityNotString[0] == PriorityNotAllowed[0] == 'P';
    assert ReporterRequired[0] == ReporterEmpty[0] == ReporterTooLong[0] == 'R';
  }

  /** Appending at most one message about `f` to messages about earlier
      fields keeps the field order. */
  lemma {:induction false} AppendInFieldOrder(e: seq<string>, part: seq<string>, f: Field)
    requires InFieldOrder(e) && Before(e, f)
    requires |part| <= 1 && OwnedBy(part, f)
    ensures InFieldOrder(e + part)
    ensures forall g: Field | Rank(f) < Rank(g) :: Before(e + part, g)
  {
    if part != [] {
      assert part[0] in part;
      forall i, j | 0 <= i < j < |e + part|
        ensures Rank(Owner((e + part)[i]).value) < Rank(Owner((e + part)[j]).value)
      {
        if j == |e| {
          assert (e + part)[i] == e[i] && e[i] in e;
        }
      }
    }
  }

  /** The errors name the fields in field order, one message at most per field. */
  lemma {:induction false} ErrorsInFieldOrder(b: BugInput)
    ensures InFieldOrder(Errors(b))
  {
    var t, d, s, p, r :=
      FieldErrors(b, Title), FieldErrors(b, Description), FieldErrors(b, Status),
      FieldErrors(b, Priority), FieldErrors(b, Reporter);
    FieldErrorsOwned(b, Title);
    FieldErrorsOwned(b, Description);
    FieldErrorsOwned(b, Status);
    FieldErrorsOwned(b, Priority);
    FieldErrorsOwned(b, Reporter);
    assert [] + t == t;
    AppendInFieldOrder([], t, Title);
    AppendInFieldOrder(t, d, Description);
    AppendInFieldOrder(t + d, s, Status);
    AppendInFieldOrder(t + d + s, p, Priority);
    AppendInFieldOrder(t + d + s + p, r, Reporter);
  }

  /** A field is reported exactly when it is checked and fails its check. */
  lemma {:induction false} ReportedIffFails(b: BugInput, f: Field)
    ensures Reported(Errors(b), f) <==> Checked(b, f) && CheckOf(b, f).Invalid?
  {
    var e := Errors(b);
    var part := FieldErrors(b, f);
    FieldErrorsOwned(b, Title);
    FieldErrorsOwned(b, Description);
    FieldErrorsOwned(b, Status);
    FieldErrorsOwned(b, Priority);
    FieldErrorsOwned(b, Reporter);
    if Checked(b, f) && CheckOf(b, f).Invalid? {
      assert part[0] in part && part[0] in e;
    }
    if Reported(e, f) {
      var m :| m in e && Owner(m) == Some(f);
      assert m in part;
    }
  }

  /** An omitted (or otherwise falsy) reporter never produces an error. */
  lemma OmittedReporterNeverReported(b: BugInput)
    requires !Truthy(b.reporter)
    ensures !Reported(Errors(b), Reporter)
  {
    ReportedIffFails(b, Reporter);
  }

  /** `{title: '', description: '', status: 'invalid'}` yields exactly three errors. */
  lemma ThreeErrorsExample()
    ensures Errors(BugInput(Str(""), Str(""), Str("invalid"), Undefined, Undefined))
         == [TitleRequired, DescriptionRequired, StatusNotAllowed]
  {
  }

  /** The complete example bug passes with no error. */
  lemma ValidExample()
    ensures Errors(BugInput(Str("Test Bug"), Str("This is a test bug"), Str("open"),
                            Str("high"), Str("John Doe"))) == []
  {
    var b := BugInput(Str("Test Bug"), Str("This is a test bug"), Str("open"),
                      Str("high"), Str("John Doe"));
    assert "Test Bug"[0] == 'T' && HasContent("Test Bug");
    assert "This is a test bug"[0] == 'T' && HasContent("This is a test bug");
    assert "John Doe"[0] == 'J' && HasContent("John Doe");
    assert ToLower("open") == "open" && ToLower("high") == "high";
    assert FieldAcceptable(b, Title) && FieldAcceptable(b, Description);
    assert FieldAcceptable(b, Status) && FieldAcceptable(b, Priority);
    assert FieldAcceptable(b, Reporter);
  }

  /** A title of 201 non-blank characters is refused with the message naming
      the 200-character limit. */
  lemma LongTitleRefused(s: string)
    requires |s| == MaxTitleLength + 1
    requires forall i :: 0 <= i < |s| ==> !IsWhitespace(s[i])
    ensures ValidateTitle(Str(s)) == Invalid(TitleTooLong)
    ensures TitleTooLong[20..] == "200 characters"
  {
    TrimOfSolid(s);
  }

  /** A reporter of 101 non-blank characters is refused. */
  lemma LongReporterRefused(s: string)
    requires |s| == MaxReporterLength + 1
    requires forall i :: 0 <= i < |s| ==> !IsWhitespace(s[i])
    ensures ValidateReporter(Str(s)) == Invalid(ReporterTooLong)
  {
    TrimOfSolid(s);
  }

  /** Status matching ignores ASCII case, so upper-case spellings pass. */
  lemma StatusCaseInsensitive()
    ensures ValidateStatus(Str("OPEN")) == Valid
    ensures ValidateStatus(Str("In-Progress")) == Valid
    ensures ValidateStatus(Str(" open")) == Invalid(StatusNotAllowed)
  {
    assert ToLower("OPEN") == "open";
    assert ToLower("In-Progress") == "in-progress";
    assert ToLower(" open") == " open";
  }
}
