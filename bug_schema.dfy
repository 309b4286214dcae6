/** The stored bug record and what the store itself enforces on it: the
    schema's required paths, the title length limit, the exact-case enums,
    the defaults, the trimming of text paths, and the identifier format. */
module BugSchema {
  import opened Text
  import opened Results
  import opened Validation

  const TitleMaxLength := 200
  const StatusEnum: seq<string> := ["open", "in-progress", "resolved", "closed"]
  const PriorityEnum: seq<string> := ["low", "medium", "high", "critical"]
  const DefaultStatus := "open"
  const DefaultPriority := "medium"

  const TitleRequiredMessage := "Title is required"
  const TitleMaxMessage := "Title cannot exceed 200 characters"
  const DescriptionRequiredMessage := "Description is required"
  const ReporterRequiredMessage := "Reporter name is required"

  /** The store's message for a value outside a path's enum. */
  function EnumMessage(value: string, path: string): string {
    "`" + value + "` is not a valid enum value for path `" + path + "`."
  }

  /** The store's message for a value that is not text on a text path. */
  function CastMessage(path: string): string {
    "Cast to string failed for path `" + path + "`"
  }

  /** A stored bug. The request bodies modelled here carry only the five
      validated fields, so `assignedTo` and `tags` take their defaults on
      creation and keep their stored values on update; a body that also
      carries them, which the store would accept, is not modelled. */
  datatype Bug = Bug(
    id: string,
    title: string,
    description: string,
    status: string,
    priority: string,
    reporter: string,
    assignedTo: string,
    tags: seq<string>)

  predicate IsHexDigit(c: char) {
    '0' <= c <= '9' || 'a' <= c <= 'f' || 'A' <= c <= 'F'
  }

  /** An identifier the store can look up: 24 hexadecimal digits. */
  predicate WellFormedId(id: string) {
    |id| == 24 && forall i :: 0 <= i < |id| ==> IsHexDigit(id[i])
  }

  /** The stored form of a well-formed identifier: its digits in lower case. */
  function Key(id: string): string {
    ToLower(id)
  }

  /** A key as the store holds it. */
  predicate StoredKey(k: string) {
    WellFormedId(k) && ToLower(k) == k
  }

  /** A well-formed identifier, in any letter case, names a key in the
      stored form, and a key in the stored form names itself. */
  lemma KeyIsStored(id: string)
    requires WellFormedId(id)
    ensures StoredKey(Key(id))
    ensures StoredKey(id) ==> Key(id) == id
  {
    ToLowerFixed(Key(id));
    if StoredKey(id) {
      ToLowerFixed(id);
    }
  }

  /** Text as the schema stores it: already trimmed. */
  predicate Trimmed(s: string) {
    Trim(s) == s
  }

  /** The schema's constraints on a stored record. */
  predicate SchemaOk(b: Bug) {
    && StoredKey(b.id)
    && b.title != "" && Trimmed(b.title) && |b.title| <= TitleMaxLength
    && b.description != "" && Trimmed(b.description)
    && b.status in StatusEnum
    && b.priority in PriorityEnum
    && b.reporter != "" && Trimmed(b.reporter)
    && Trimmed(b.assignedTo)
  }

  /** A required, trimmed text path: missing, null or blank text fails the
      required check, anything but text fails the cast, text is trimmed. */
  function CastText(v: JsValue, path: string, requiredMessage: string): (r: Result<string, string>)
    ensures r.Ok? <==> v.Str? && HasContent(v.s)
    ensures r.Ok? ==> r.value == Trim(v.s) && r.value != "" && Trimmed(r.value)
    ensures v.Undefined? || v.Null? || (v.Str? && !HasContent(v.s)) ==> r == Err(requiredMessage)
    ensures !v.Str? && !v.Undefined? && !v.Null? ==> r == Err(CastMessage(path))
  {
    if v.Undefined? || v.Null? then Err(requiredMessage)
    else if !v.Str? then Err(CastMessage(path))
    else
      var t := Trim(v.s);
      TrimIdempotent(v.s);
      if t == "" then Err(requiredMessage) else Ok(t)
  }

  /** The title path: a required text path with at most 200 characters
      after trimming. */
  function CastTitle(v: JsValue): (r: Result<string, string>)
    ensures r.Ok? <==> v.Str? && HasContent(v.s) && |Trim(v.s)| <= TitleMaxLength
    ensures r.Ok? ==> r.value == Trim(v.s) && r.value != "" && Trimmed(r.value)
    ensures v.Str? && |Trim(v.s)| > TitleMaxLength ==> r == Err(TitleMaxMessage)
    ensures v.Undefined? || v.Null? || (v.Str? && !HasContent(v.s)) ==> r == Err(TitleRequiredMessage)
    ensures !v.Str? && !v.Undefined? && !v.Null? ==> r == Err(CastMessage("title"))
  {
    match CastText(v, "title", TitleRequiredMessage)
    case Err(e) => Err(e)
    case Ok(t) => if |t| > TitleMaxLength then Err(TitleMaxMessage) else Ok(t)
  }

  /** An enum path: the value must be text equal to one of `values`,
      letter case included. */
  function CastChoice(v: JsValue, values: seq<string>, path: string): (r: Result<string, string>)
    ensures r.Ok? <==> v.Str? && v.s in values
    ensures r.Ok? ==> r.value == v.s
    ensures v.Str? && v.s !in values ==> r == Err(EnumMessage(v.s, path))
    ensures !v.Str? ==> r == Err(CastMessage(path))
  {
    if !v.Str? then Err(CastMessage(path))
    else if v.s in values then Ok(v.s)
    else Err(EnumMessage(v.s, path))
  }

  /** An enum path on insertion: an omitted value takes the default. */
  function CastChoiceOrDefault(v: JsValue, values: seq<string>, path: string, default: string)
    : (r: Result<string, string>)
    ensures v.Undefined? ==> r == Ok(default)
    ensures !v.Undefined? ==> r == CastChoice(v, values, path)
  {
    if v.Undefined? then Ok(default) else CastChoice(v, values, path)
  }

  /** The message of a failed path, none for a passed one. */
  function ErrorOf<T>(r: Result<T, string>): seq<string> {
    if r.Ok? then [] else [r.error]
  }

  /** An enum value the store keeps: omitted, or text in the enum exactly.
      Null is not kept here, a modelling choice. */
  predicate Storable(v: JsValue, values: seq<string>) {
    v.Undefined? || (v.Str? && v.s in values)
  }

  /** The request values under which the store accepts a new record. */
  predicate StoreAccepts(body: BugInput) {
    && body.title.Str? && HasContent(body.title.s) && |Trim(body.title.s)| <= TitleMaxLength
    && body.description.Str? && HasContent(body.description.s)
    && Storable(body.status, StatusEnum)
    && Storable(body.priority, PriorityEnum)
    && body.reporter.Str? && HasContent(body.reporter.s)
  }

  /** Inserting a new record: each path is cast and checked, and every
      failing path contributes one message. The model lists the messages in
      the order the schema declares the paths; null on an enum path counts
      as a failed cast. On success the record holds the trimmed text, the
      given values or the defaults. */
  function CastNew(body: BugInput, id: string): (r: Result<Bug, seq<string>>)
    ensures r.Ok? <==> StoreAccepts(body)
    ensures r.Err? ==> 1 <= |r.error| <= 5
    ensures r.Ok? ==> r.value == Bug(id, Trim(body.title.s), Trim(body.description.s),
                                     SuppliedChoice(body.status).GetOr(DefaultStatus),
                                     SuppliedChoice(body.priority).GetOr(DefaultPriority),
                                     Trim(body.reporter.s), "", [])
    ensures r.Ok? && StoredKey(id) ==> SchemaOk(r.value)
  {
    var title := CastTitle(body.title);
    var description := CastText(body.description, "description", DescriptionRequiredMessage);
    var status := CastChoiceOrDefault(body.status, StatusEnum, "status", DefaultStatus);
    var priority := CastChoiceOrDefault(body.priority, PriorityEnum, "priority", DefaultPriority);
    var reporter := CastText(body.reporter, "reporter", ReporterRequiredMessage);
    if title.Ok? && description.Ok? && status.Ok? && priority.Ok? && reporter.Ok? then
      assert Trimmed("") by { assert !HasContent(""); }
      Ok(Bug(id, title.value, description.value, status.value, priority.value, reporter.value, "", []))
    else
      Err(ErrorOf(title) + ErrorOf(description) + ErrorOf(status) + ErrorOf(priority) + ErrorOf(reporter))
  }

  /** The fields an update supplies, already cast; `None` leaves a field as it is. */
  datatype Patch = Patch(
    title: Option<string>,
    description: Option<string>,
    status: Option<string>,
    priority: Option<string>,
    reporter: Option<string>)

  /** One path of an update: omitted paths are left out of the update. */
  function Supplied(v: JsValue, cast: Result<string, string>): Result<Option<string>, string> {
    if v.Undefined? then Ok(None)
    else if cast.Ok? then Ok(Some(cast.value))
    else Err(cast.error)
  }

  /** The request values under which the store accepts an update: each
      supplied path passes that path's checks. */
  predicate UpdateAccepts(body: BugInput) {
    && (!body.title.Undefined? ==>
          body.title.Str? && HasContent(body.title.s) && |Trim(body.title.s)| <= TitleMaxLength)
    && (!body.description.Undefined? ==> body.description.Str? && HasContent(body.description.s))
    && (!body.status.Undefined? ==> body.status.Str? && body.status.s in StatusEnum)
    && (!body.priority.Undefined? ==> body.priority.Str? && body.priority.s in PriorityEnum)
    && (!body.reporter.Undefined? ==> body.reporter.Str? && HasContent(body.reporter.s))
  }

  /** The value an update sets a text path to, if it supplies one. */
  function SuppliedText(v: JsValue): Option<string> {
    if v.Str? then Some(Trim(v.s)) else None
  }

  /** The value an update sets an enum path to, if it supplies one. */
  function SuppliedChoice(v: JsValue): Option<string> {
    if v.Str? then Some(v.s) else None
  }

  /** Casting and validating the supplied paths of an update; every
      failing supplied path contributes one message, listed in the order
      the schema declares the paths. */
  function CastUpdate(body: BugInput): (r: Result<Patch, seq<string>>)
    ensures r.Ok? <==> UpdateAccepts(body)
    ensures r.Err? ==> 1 <= |r.error| <= 5
    ensures r.Ok? ==> r.value == Patch(SuppliedText(body.title), SuppliedText(body.description),
                                       SuppliedChoice(body.status), SuppliedChoice(body.priority),
                                       SuppliedText(body.reporter))
  {
    var title := Supplied(body.title, CastTitle(body.title));
    var description := Supplied(body.description,
                                CastText(body.description, "description", DescriptionRequiredMessage));
    var status := Supplied(body.status, CastChoice(body.status, StatusEnum, "status"));
    var priority := Supplied(body.priority, CastChoice(body.priority, PriorityEnum, "priority"));
    var reporter := Supplied(body.reporter,
                             CastText(body.reporter, "reporter", ReporterRequiredMessage));
    if title.Ok? && description.Ok? && status.Ok? && priority.Ok? && reporter.Ok? then
      Ok(Patch(title.value, description.value, status.value, priority.value, reporter.value))
    else
      Err(ErrorOf(title) + ErrorOf(description) + ErrorOf(status) + ErrorOf(priority) + ErrorOf(reporter))
  }

  /** The record after an update: supplied fields replaced, the rest kept. */
  function ApplyPatch(b: Bug, p: Patch): Bug {
    b.(title := p.title.GetOr(b.title),
       description := p.description.GetOr(b.description),
       status := p.status.GetOr(b.status),
       priority := p.priority.GetOr(b.priority),
       reporter := p.reporter.GetOr(b.reporter))
  }

  /** An accepted update changes exactly the fields the body supplies, to
      their stored form, and leaves the identifier and every other field as
      they were. */
  lemma UpdateReplacesOnlySupplied(b: Bug, body: BugInput)
    requires CastUpdate(body).Ok?
    ensures var n := ApplyPatch(b, CastUpdate(body).value);
      && n.id == b.id && n.assignedTo == b.assignedTo && n.tags == b.tags
      && n.title == (if body.title.Undefined? then b.title else Trim(body.title.s))
      && n.description == (if body.description.Undefined? then b.description else Trim(body.description.s))
      && n.status == (if body.status.Undefined? then b.status else body.status.s)
      && n.priority == (if body.priority.Undefined? then b.priority else body.priority.s)
      && n.reporter == (if body.reporter.Undefined? then b.reporter else Trim(body.reporter.s))
  {
  }

  /** An accepted update keeps a record within the schema. */
  lemma UpdateKeepsSchema(b: Bug, body: BugInput)
    requires SchemaOk(b) && CastUpdate(body).Ok?
    ensures SchemaOk(ApplyPatch(b, CastUpdate(body).value))
  {
    var p := CastUpdate(body).value;
    if p.title.Some? {
      TrimIdempotent(body.title.s);
    }
    if p.description.Some? {
      TrimIdempotent(body.description.s);
    }
    if p.reporter.Some? {
      TrimIdempotent(body.reporter.s);
    }
  }

  /** Once the validator has passed a body, the store refuses it exactly when
      the reporter is falsy or an enum value is present but not an exact-case
      member (a falsy one such as `""`, or an upper-case spelling). */
  lemma StoreAfterValidation(body: BugInput, id: string)
    requires Errors(body) == []
    ensures CastNew(body, id).Ok? <==>
      Truthy(body.reporter) && Storable(body.status, StatusEnum) && Storable(body.priority, PriorityEnum)
  {
    assert FieldAcceptable(body, Reporter);
    if !Truthy(body.reporter) && body.reporter.Str? {
      assert !HasContent(body.reporter.s);
    }
  }

  /** `"OPEN"` passes the validator, which ignores case, but the store's
      enum is exact-case and refuses it. */
  lemma UpperCaseStatusRefusedByStore(id: string)
    ensures var body := BugInput(Str("Crash"), Str("Steps"), Str("OPEN"), Undefined, Str("Ann"));
      && Errors(body) == []
      && CastNew(body, id) == Err([EnumMessage("OPEN", "status")])
  {
    var body := BugInput(Str("Crash"), Str("Steps"), Str("OPEN"), Undefined, Str("Ann"));
    SolidFields(body);
    assert ToLower("OPEN") == "open";
    assert FieldAcceptable(body, Status) && FieldAcceptable(body, Priority);
    assert "OPEN" !in StatusEnum;
    assert CastNew(body, id).error == [EnumMessage("OPEN", "status")];
  }

  /** A body without a reporter passes the validator, which checks the
      reporter only when given, but the store requires one. */
  lemma MissingReporterRefusedByStore(id: string)
    ensures var body := BugInput(Str("Crash"), Str("Steps"), Undefined, Undefined, Undefined);
      && Errors(body) == []
      && CastNew(body, id) == Err([ReporterRequiredMessage])
  {
    var body := BugInput(Str("Crash"), Str("Steps"), Undefined, Undefined, Undefined);
    SolidFields(body);
    assert FieldAcceptable(body, Status) && FieldAcceptable(body, Priority);
    assert CastNew(body, id).error == [ReporterRequiredMessage];
  }

  /** The title and description shared by the two examples above pass both
      the validator and the store. */
  lemma SolidFields(body: BugInput)
    requires body.title == Str("Crash") && body.description == Str("Steps")
    requires body.reporter == Undefined || body.reporter == Str("Ann")
    ensures FieldAcceptable(body, Title) && FieldAcceptable(body, Description)
    ensures FieldAcceptable(body, Reporter)
    ensures CastTitle(body.title) == Ok("Crash")
    ensures CastText(body.description, "description", DescriptionRequiredMessage) == Ok("Steps")
    ensures body.reporter == Str("Ann") ==>
      CastText(body.reporter, "reporter", ReporterRequiredMessage) == Ok("Ann")
  {
    TrimOfSolid("Crash");
    TrimOfSolid("Steps");
    TrimOfSolid("Ann");
  }
}
