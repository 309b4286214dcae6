# Bug tracker server: validation and bug handlers in Dafny

This project models the server side of a small bug tracker. It has two parts:

- **The field validator.** Five per-field checks and the aggregate
  `validateBug`, which collects every failing message in field order.
- **The bug handlers.** List, get, create, update, delete and the status
  change. They run over a store of bug records keyed by identifier. The
  store enforces the constraints of the bug schema: required fields,
  trimming, the 200-character title limit, exact-case enums and defaults.

The model has five modules:

- `Results` (`results.dfy`): `Option` and `Result`.
- `Text` (`text.dfy`): JavaScript's `trim` and `toLowerCase` on strings.
  - `trim` uses an explicit ECMAScript whitespace predicate.
  - `toLowerCase` maps ASCII letters only.
- `Validation` (`validation.dfy`): the five field checks as functions over a
  JavaScript value.
  - A value is `Undefined | Null | Bool | Num | Str | Object`, with
    JavaScript truthiness.
  - `Errors` is the aggregate's specification: a concatenation.
  - `ValidateBug` is the step-by-step method that pushes messages one field
    at a time. It is proved equal to `Errors`.
- `BugSchema` (`bug_schema.dfy`): the stored record and the schema constants.
  - The store's casting and validation of a new record (`CastNew`) and of an
    update (`CastUpdate`).
  - Identifiers: 24 hexadecimal digits, stored in lower case.
- `Controller` (`controller.dfy`): the class `BugsController` over a
  `map<string, Bug>` store, with one method per handler.
  - Each method returns a status code and a body.
  - Each mutating handler changes the map in place.
  - Its contract states the response and the new store for every branch.
  - Listing is specified through a filter, the query engine's order, a
    window and a page count.

Values that come from outside are parameters:

- The identifier of a new record, which the database generates. It must be
  fresh.
- The order the query engine sorts the store into for a given sort. It must
  list every stored key exactly once.

The handlers follow the code of `server/src/controllers/bugsController.js`.
In two places the repository's integration tests expect otherwise:

- The update gate runs the full validator whenever title, description,
  status or priority is truthy. The validator requires a title and a
  description. So `{status: 'resolved'}` alone is refused with 400
  (`StatusOnlyUpdateRejected`). `server/tests/integration/bugs.test.js:293-306`
  expects 200.
- `{title: ...}` on an unknown identifier is refused with 400 before the
  lookup (`TitleOnlyUpdateRejected`). `server/tests/integration/bugs.test.js:266-278`
  expects 404.

## Model

| member | source | states |
|---|---|---|
| Text.Trim | server/src/utils/validation.js:13 | the trimmed string is empty exactly when the input has no non-whitespace character; otherwise it neither starts nor ends with whitespace |
| Text.TrimIsSlice | server/src/utils/validation.js:13 | the trimmed string is the slice of the input between a whitespace-only prefix and a whitespace-only suffix, which fixes its length |
| Text.TrimStartSpec | server/src/utils/validation.js:13 | trimming the front removes a whitespace-only prefix and stops at the first non-whitespace character |
| Text.TrimEndSpec | server/src/utils/validation.js:13 | trimming the back removes a whitespace-only suffix and stops at the last non-whitespace character |
| Text.TrimOfTrimmed | server/src/utils/validation.js:13 | a string with no whitespace at either end is its own trim |
| Text.TrimIdempotent | server/src/models/Bug.js:10 | trimming twice is trimming once, so stored text is stable |
| Text.TrimOfSolid | server/src/utils/validation.js:13 | a string without whitespace is unchanged by trim |
| Text.ToLower | server/src/utils/validation.js:57 | lower-casing keeps the length, maps each character, and leaves no upper-case ASCII letter |
| Text.ToLowerFixed | server/src/utils/validation.js:57 | a string without upper-case ASCII letters is its own lower-case form |
| Validation.ValidateTitle | server/src/utils/validation.js:8-24 | valid iff a string whose trimmed length is 1 to 200; falsy or non-string gives "Title is required and must be a string", blank gives "Title cannot be empty", too long gives "Title cannot exceed 200 characters" |
| Validation.ValidateDescription | server/src/utils/validation.js:31-43 | valid iff a string with non-blank content, with no upper bound; the two messages by case |
| Validation.ValidateStatus | server/src/utils/validation.js:50-65 | valid iff a string whose lower-cased form is open, in-progress, resolved or closed, untrimmed; a falsy or non-string value gives the required message, any other string the enum message |
| Validation.ValidatePriority | server/src/utils/validation.js:72-87 | every falsy value is valid; a truthy non-string gives "Priority must be a string"; a string is valid iff its lower-cased form is low, medium, high or critical |
| Validation.ValidateReporter | server/src/utils/validation.js:94-110 | valid iff a string whose trimmed length is 1 to 100; the three messages by case |
| Validation.FieldErrors | server/src/utils/validation.js:121-154 | one field contributes at most one message, and none exactly when the field is skipped or passes |
| Validation.Errors | server/src/utils/validation.js:117-160 | at most five messages, and none exactly when every field is acceptable |
| Validation.ValidateBug | server/src/utils/validation.js:117-160 | the messages pushed one field at a time are the failing messages in field order, and `isValid` holds iff there are none |
| Validation.FieldErrorsOwned | server/src/utils/validation.js:121-154 | each message a field check produces is about that field |
| Validation.AppendInFieldOrder | server/src/utils/validation.js:118-154 | pushing a message about a later field keeps the list in field order |
| Validation.ErrorsInFieldOrder | server/src/utils/validation.js:117-160 | the messages name fields in the order title, description, status, priority, reporter, one at most per field |
| Validation.ReportedIffFails | server/src/utils/validation.js:121-154 | a field is reported exactly when it is checked (title and description always, the rest only when truthy) and fails |
| Validation.OmittedReporterNeverReported | server/src/utils/validation.js:148-154 | a falsy reporter never produces a message |
| Validation.ThreeErrorsExample | server/tests/unit/validation.test.js:214-223 | empty title, empty description and status 'invalid' give exactly the three messages, in that order |
| Validation.ValidExample | server/tests/unit/validation.test.js:161-172 | the complete example bug gives no message |
| Validation.LongTitleRefused | server/src/utils/validation.js:19-21 | a 201-character title is refused with the message naming "200 characters" |
| Validation.LongReporterRefused | server/src/utils/validation.js:105-107 | a 101-character reporter is refused with the too-long message |
| Validation.StatusCaseInsensitive | server/src/utils/validation.js:57 | "OPEN" and "In-Progress" pass; " open" fails, since no trimming is applied |
| BugSchema.KeyIsStored | server/src/controllers/bugsController.js:63 | a well-formed identifier, in any letter case, names a key in the stored form, and a key in the stored form names itself |
| BugSchema.CastText | server/src/models/Bug.js:13-17 | a required text path accepts exactly non-blank text and stores it trimmed; missing, null or blank gives the required message, and any other value that is not text the cast message |
| BugSchema.CastTitle | server/src/models/Bug.js:7-12 | the title path accepts exactly non-blank text of at most 200 characters after trimming; missing, null or blank gives the required message, a longer title the maxlength message, and a value that is not text the cast message |
| BugSchema.CastChoice | server/src/models/Bug.js:18-27 | an enum path accepts exactly text equal to a member, letter case included; it gives the enum message for any other text and the cast message for a value that is not text |
| BugSchema.CastChoiceOrDefault | server/src/models/Bug.js:21 | an omitted enum value takes the default, otherwise the value is checked against the enum |
| BugSchema.CastNew | server/src/models/Bug.js:5-41 | a new record is accepted iff every path passes; it then holds the trimmed text, the given enum values or "open" and "medium", an empty assignee and no tags, and it meets the schema; otherwise one to five messages |
| BugSchema.CastUpdate | server/src/controllers/bugsController.js:147-151 | an update is accepted iff every supplied path passes its schema checks; the patch sets exactly the supplied paths, text trimmed |
| BugSchema.UpdateReplacesOnlySupplied | server/src/controllers/bugsController.js:147-151 | an accepted update replaces exactly the supplied fields and keeps the identifier, the assignee, the tags and every omitted field |
| BugSchema.UpdateKeepsSchema | server/src/models/Bug.js:5-41 | an accepted update keeps a record within the schema |
| BugSchema.StoreAfterValidation | server/src/controllers/bugsController.js:96-122 | after the validator passes, the store refuses the body exactly when the reporter is falsy or an enum value is present but not an exact-case member |
| BugSchema.UpperCaseStatusRefusedByStore | server/src/controllers/bugsController.js:115-122 | status "OPEN" passes the validator but the store refuses it with its enum message |
| BugSchema.MissingReporterRefusedByStore | server/src/models/Bug.js:30 | a body without a reporter passes the validator but the store refuses it with "Reporter name is required" |
| Controller.BuildFilter | server/src/controllers/bugsController.js:14-20 | the filter has a status or priority condition exactly when that query value is non-empty, and then holds that value |
| Controller.BuildSort | server/src/controllers/bugsController.js:11 | the sort path defaults to createdAt; the direction is 1 exactly when order is "asc", otherwise -1 |
| Controller.Select | server/src/controllers/bugsController.js:32 | a key is kept exactly when it is stored and its record matches the filter |
| Controller.SelectKeepsOrder | server/src/controllers/bugsController.js:32-33 | the kept keys are a subsequence of the engine's order: an increasing map of their positions into the ranking |
| Controller.Window | server/src/controllers/bugsController.js:34-35 | skip and limit leave at most `limit` records, starting at position `skip` |
| Controller.Skip | server/src/controllers/bugsController.js:25 | the skip for page `page` is the number of records on the earlier pages, never negative |
| Controller.Pages | server/src/controllers/bugsController.js:48 | the page count is the least number of `limit`-sized pages that hold the total |
| Controller.ListPage | server/src/controllers/bugsController.js:32-36 | a listed page holds exactly the matching records at positions `skip` up to `skip + limit - 1` of the engine's order, in that order (none when `skip` is past the end), so at most `limit` of them, each a stored record that matches the filter |
| Controller.TotalCountsMatches | server/src/controllers/bugsController.js:39 | the reported total is the number of stored records that match the filter |
| Controller.OnExactlyOnePage | server/src/controllers/bugsController.js:23-25 | every matching record lies on one page between 1 and the page count, at its position within that page, and on no other page |
| Controller.PageOf | server/src/controllers/bugsController.js:25 | a position belongs to the page whose skip range contains it |
| Controller.StatusOnlyUpdateRejected | server/src/controllers/bugsController.js:136-145 | a status-only update triggers the validator, which asks for the title and the description |
| Controller.TitleOnlyUpdateRejected | server/src/controllers/bugsController.js:136-145 | a title-only update triggers the validator, which asks for the description |
| Controller.LongReporterUpdateAccepted | server/src/controllers/bugsController.js:136-151 | a reporter-only update skips the validator, so a reporter over 100 characters is stored |
| Controller.EmptyUpdateKeepsRecord | server/src/controllers/bugsController.js:136-151 | an empty update passes every check and leaves the record unchanged |
| Controller.StorePut | server/src/models/Bug.js:5-41 | storing a schema-valid record under its own identifier keeps the store valid |
| Controller.StoreRemove | server/src/controllers/bugsController.js:191 | removing a key keeps the store valid |
| Controller.BugsController.constructor | server/src/models/Bug.js:84 | the store starts empty and valid |
| Controller.BugsController.GetAllBugs | server/src/controllers/bugsController.js:9-54 | 200 with the page's records, the requested page and limit (defaults 1 and 10), the matching total and the page count; a page below 1 is passed on as an error |
| Controller.BugsController.GetBugById | server/src/controllers/bugsController.js:59-86 | 400 "Invalid bug ID format" for a malformed identifier, 404 "Bug not found" for an unknown one, otherwise 200 with the schema-valid stored record |
| Controller.BugsController.CreateBug | server/src/controllers/bugsController.js:91-125 | 400 with the validator's messages, or else 400 with the store's messages, with the store unchanged; otherwise 201 and exactly one new record under the fresh identifier |
| Controller.BugsController.UpdateBug | server/src/controllers/bugsController.js:130-182 | the gate, then identifier format, then the store's checks, then 404, each leaving the store unchanged; otherwise 200 with only that record's supplied fields replaced |
| Controller.BugsController.DeleteBug | server/src/controllers/bugsController.js:187-214 | 400 or 404 leave the store unchanged; otherwise 200 with the removed record, and exactly that key is gone |
| Controller.BugsController.UpdateBugStatus | server/src/controllers/bugsController.js:219-265 | a falsy status gives 400 "Status is required" before any lookup; then 400 or 404 for the identifier; a status outside the exact-case enum gives 400 with the store's message; otherwise only that record's status changes |

## Left out

- Casting of non-text values by the database library is not modelled.
  - A number or boolean on a text path is refused with a cast message. The
    library would turn it into text.
  - The cast and enum messages follow the library's templates but are not
    checked against it.
- The sort itself belongs to the query engine. `GetAllBugs` receives the
  engine's order of the stored keys as a parameter. Ties and the creation
  timestamps are not modelled.
- GetAllBugs: requires a positive limit.
  - `page` and `limit` are taken as the numbers `parseInt` gave.
  - Non-numeric values (NaN) and a limit of 0 or below are outside the model.
  - A page below 1 gives a negative skip, which the engine refuses. The
    model answers it as an error passed on to the generic handler.
- Query values are taken as strings. Arrays and objects that a query string
  can also produce are not modelled.
- `trim` uses an explicit whitespace predicate. Lengths count characters,
  not UTF-16 code units.
- `toLowerCase` maps ASCII letters only. Other letters keep their case.
- Identifiers are modelled only in their 24-hex-digit text form. The 12-byte
  form and the generation of new identifiers are not modelled; the database
  supplies them.
- Database and network failures are not modelled. The HTTP routing, `async`
  control flow and the `success` flag of each body are not modelled either;
  the body constructor implies the flag.
- Request bodies are modelled with the five validated fields only. The
  create and update handlers pass the whole body to the store, which also
  stores `assignedTo`, `tags`, `stepsToReproduce`, `expectedBehavior`,
  `actualBehavior`, `environment` and `attachments` when a body carries them.
  The last five of these paths and the timestamps are left out of the record.
- CastNew: its empty assignee and empty tag list hold only for bodies without
  those keys, the only bodies modelled.
- CastUpdate: the patch covers the five validated fields only; a body that
  also carries `assignedTo` or `tags` would change them as well.
- UpdateReplacesOnlySupplied: "keeps the assignee and the tags" holds only for
  bodies without those keys.
- CastNew: the order of its messages is a modelling choice. The model lists
  them in the order the schema declares the paths; the library collects them
  in its own order (paths the body omits may come first), and the 400 body of
  `CreateBug` carries the model's order.
- CastUpdate: its messages are likewise listed in the schema's path order;
  the library's update validators follow its own order, and the 400 body of
  `UpdateBug` carries the model's order.
- StoreAfterValidation: null on an enum path is refused with a cast message,
  a modelling choice. The library casts null to null and, depending on its
  version, either stores it or refuses it with the enum message.
- The schema's `updateStatus` and `findByStatus` helpers are not called by
  the handlers and are not modelled.
- The client (components, API wrapper, client-side form checks) is not part
  of this model. Neither are the connection and test-setup scripts.
