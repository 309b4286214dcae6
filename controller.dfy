/** The bug handlers: listing with filter, sort and pages, lookup, creation,
    update, deletion and the status change, over a store of records keyed by
    identifier. Each handler answers with a status code and a body. */
module Controller {
  import opened Text
  import opened Results
  import opened Validation
  import opened BugSchema

  /** The page summary sent with a list. */
  datatype Pagination = Pagination(page: int, limit: int, total: int, pages: int)

  /** Response bodies: one record (with an optional message), a page of
      records, or a failure (`success: false`) with an optional message list.
      `Unhandled` stands for an error passed on to the generic error handler. */
  datatype Body =
    | One(record: Bug, message: Option<string>)
    | Many(records: seq<Bug>, pagination: Pagination)
    | Failure(error: string, errors: Option<seq<string>>)
    | Unhandled

  datatype Response = Response(status: int, body: Body)

  const BugNotFound := Response(404, Failure("Bug not found", None))
  const InvalidIdFormat := Response(400, Failure("Invalid bug ID format", None))
  const StatusMissing := Response(400, Failure("Status is required", None))

  function ValidationFailed(errors: seq<string>): Response {
    Response(400, Failure("Validation failed", Some(errors)))
  }

  /** The list query. A value that is absent is `None`; `page` and `limit`
      hold what `parseInt` gave for a supplied value. */
  datatype ListQuery = ListQuery(
    status: Option<string>,
    priority: Option<string>,
    page: Option<int>,
    limit: Option<int>,
    sortBy: Option<string>,
    order: Option<string>)

  /** The filter: an exact-value condition per filtered path. */
  datatype Filter = Filter(status: Option<string>, priority: Option<string>)

  /** The sort: one path and a direction, 1 ascending and -1 descending. */
  datatype SortSpec = SortSpec(path: string, direction: int)

  /** Only non-empty status and priority values become conditions. */
  function BuildFilter(q: ListQuery): (f: Filter)
    ensures f.status.Some? <==> q.status.Some? && q.status.value != ""
    ensures f.priority.Some? <==> q.priority.Some? && q.priority.value != ""
    ensures f.status.Some? ==> f.status == q.status
    ensures f.priority.Some? ==> f.priority == q.priority
  {
    Filter(if q.status.Some? && q.status.value != "" then q.status else None,
           if q.priority.Some? && q.priority.value != "" then q.priority else None)
  }

  predicate Matches(b: Bug, f: Filter) {
    && (f.status.Some? ==> b.status == f.status.value)
    && (f.priority.Some? ==> b.priority == f.priority.value)
  }

  /** The sort is by creation time unless another path is named, and is
      ascending exactly when the order is `"asc"`: any other order, or none,
      sorts descending. */
  function BuildSort(q: ListQuery): (s: SortSpec)
    ensures q.sortBy.None? ==> s.path == "createdAt"
    ensures q.sortBy.Some? ==> s.path == q.sortBy.value
    ensures s.direction == 1 || s.direction == -1
    ensures s.direction == 1 <==> q.order == Some("asc")
  {
    SortSpec(q.sortBy.GetOr("createdAt"), if q.order == Some("asc") then 1 else -1)
  }

  predicate Distinct(s: seq<string>) {
    forall i, j | 0 <= i < j < |s| :: s[i] != s[j]
  }

  /** `ranked` lists every key of the store exactly once: the order the
      query engine sorts the store into. */
  predicate IsRanking(ranked: seq<string>, bugs: map<string, Bug>) {
    && Distinct(ranked)
    && (forall k | k in ranked :: k in bugs)
    && (forall k | k in bugs :: k in ranked)
  }

  /** The keys of `ids`, in order, whose records match the filter. */
  function Select(ids: seq<string>, bugs: map<string, Bug>, f: Filter): (r: seq<string>)
    ensures |r| <= |ids|
    ensures forall k :: k in r <==> k in ids && k in bugs && Matches(bugs[k], f)
  {
    if ids == [] then []
    else
      var rest := Select(ids[1..], bugs, f);
      if ids[0] in bugs && Matches(bugs[ids[0]], f) then [ids[0]] + rest else rest
  }

  ghost function MatchingKeys(bugs: map<string, Bug>, f: Filter): set<string> {
    set k | k in bugs && Matches(bugs[k], f)
  }

  function Min(a: int, b: int): int {
    if a <= b then a else b
  }

  /** What `skip` and `limit` leave of `s`: at most `limit` elements, from
      position `skip` on. */
  function Window<T>(s: seq<T>, skip: nat, limit: nat): (r: seq<T>)
    ensures |r| <= limit
    ensures skip >= |s| ==> r == []
    ensures skip <= |s| ==> |r| == Min(limit, |s| - skip)
    ensures forall i | 0 <= i < |r| :: skip + i < |s| && r[i] == s[skip + i]
  {
    s[Min(skip, |s|)..Min(skip + limit, |s|)]
  }

  /** `Math.ceil(total / limit)`: the fewest pages of `limit` that hold
      `total` records. */
  function Pages(total: nat, limit: int): (r: nat)
    requires limit >= 1
    ensures r * limit >= total
    ensures r == 0 || (r - 1) * limit < total
  {
    (total + limit - 1) / limit
  }

  /** How many matching records come before page `page`. */
  function Skip(page: int, limit: int): (r: nat)
    requires page >= 1 && limit >= 1
    ensures r == (page - 1) * limit
  {
    MultiplyMonotone(0, page - 1, limit);
    (page - 1) * limit
  }

  /** The records stored under `keys`, in order. */
  function RecordsOf(keys: seq<string>, bugs: map<string, Bug>): (r: seq<Bug>)
    requires forall k | k in keys :: k in bugs
    ensures |r| == |keys|
    ensures forall i | 0 <= i < |r| :: r[i] == bugs[keys[i]]
  {
    seq(|keys|, i requires 0 <= i < |keys| => bugs[keys[i]])
  }

  /** One page of a listing: the records of the keys of `ranked` that match
      the filter, from position `skip` on and at most `limit` of them. */
  function ListPage(ranked: seq<string>, bugs: map<string, Bug>, f: Filter, skip: nat, limit: nat)
    : (r: seq<Bug>)
    ensures |r| <= limit
    ensures skip <= |Select(ranked, bugs, f)| ==> |r| == Min(limit, |Select(ranked, bugs, f)| - skip)
    ensures skip >= |Select(ranked, bugs, f)| ==> r == []
    ensures forall i | 0 <= i < |r| ::
      && skip + i < |Select(ranked, bugs, f)|
      && Select(ranked, bugs, f)[skip + i] in bugs
      && r[i] == bugs[Select(ranked, bugs, f)[skip + i]]
    ensures forall b | b in r :: b in bugs.Values && Matches(b, f)
  {
    var keys := Window(Select(ranked, bugs, f), skip, limit);
    assert forall k | k in keys :: k in bugs && Matches(bugs[k], f);
    RecordsOf(keys, bugs)
  }

  /** `m` maps each position of `r` to a position of `ids` holding the same
      key, and keeps positions in increasing order. */
  ghost predicate IndexMap(m: seq<int>, r: seq<string>, ids: seq<string>) {
    && |m| == |r|
    && (forall i | 0 <= i < |m| :: 0 <= m[i] < |ids| && ids[m[i]] == r[i])
    && (forall i, j | 0 <= i < j < |m| :: m[i] < m[j])
  }

  /** `r` is `ids` with some elements left out, the rest in their order. */
  ghost predicate Subsequence(r: seq<string>, ids: seq<string>) {
    exists m :: IndexMap(m, r, ids)
  }

  /** Filtering keeps the engine's order: the selected keys are a
      subsequence of the ranking. */
  lemma {:induction false} SelectKeepsOrder(ids: seq<string>, bugs: map<string, Bug>, f: Filter)
    ensures Subsequence(Select(ids, bugs, f), ids)
  {
    if ids == [] {
      assert IndexMap([], [], ids);
    } else {
      var rest := Select(ids[1..], bugs, f);
      SelectKeepsOrder(ids[1..], bugs, f);
      var m :| IndexMap(m, rest, ids[1..]);
      var shifted := seq(|m|, i requires 0 <= i < |m| => m[i] + 1);
      assert IndexMap(shifted, rest, ids);
      if ids[0] in bugs && Matches(bugs[ids[0]], f) {
        var kept := [ids[0]] + rest;
        assert IndexMap([0] + shifted, kept, ids) by {
          forall i | 0 < i < |kept|
            ensures kept[i] == rest[i - 1]
          {
          }
        }
      }
    }
  }

  lemma {:induction false} SelectDistinct(ids: seq<string>, bugs: map<string, Bug>, f: Filter)
    requires Distinct(ids)
    ensures Distinct(Select(ids, bugs, f))
  {
    if ids != [] {
      assert Distinct(ids[1..]);
      SelectDistinct(ids[1..], bugs, f);
    }
  }

  ghost function Elements(s: seq<string>): set<string> {
    set k | k in s
  }

  lemma {:induction false} DistinctCardinality(s: seq<string>)
    requires Distinct(s)
    ensures |Elements(s)| == |s|
  {
    if s != [] {
      assert Distinct(s[1..]);
      DistinctCardinality(s[1..]);
      assert Elements(s) == {s[0]} + Elements(s[1..]);
      assert s[0] !in Elements(s[1..]);
    }
  }

  /** The reported total counts the stored records that match the filter. */
  lemma TotalCountsMatches(ranked: seq<string>, bugs: map<string, Bug>, f: Filter)
    requires IsRanking(ranked, bugs)
    ensures |Select(ranked, bugs, f)| == |MatchingKeys(bugs, f)|
  {
    var sel := Select(ranked, bugs, f);
    SelectDistinct(ranked, bugs, f);
    DistinctCardinality(sel);
    assert Elements(sel) == MatchingKeys(bugs, f);
  }

  /** The page a position of the matching list falls on. */
  function PageOf(i: nat, limit: int): (p: int)
    requires limit >= 1
    ensures p >= 1
    ensures (p - 1) * limit <= i < p * limit
  {
    i / limit + 1
  }

  /** Every matching record is on exactly one of the pages 1 to `pages`:
      on page `PageOf(i, limit)`, at its position within the page, and on no
      other page. */
  lemma OnExactlyOnePage(s: seq<string>, limit: int, i: nat, q: int)
    requires limit >= 1 && i < |s| && Distinct(s) && q >= 1
    ensures PageOf(i, limit) <= Pages(|s|, limit)
    ensures 0 <= i - Skip(PageOf(i, limit), limit) < |Window(s, Skip(PageOf(i, limit), limit), limit)|
    ensures Window(s, Skip(PageOf(i, limit), limit), limit)[i - Skip(PageOf(i, limit), limit)] == s[i]
    ensures s[i] in Window(s, Skip(q, limit), limit) <==> q == PageOf(i, limit)
  {
    var p := PageOf(i, limit);
    var pages := Pages(|s|, limit);
    if p > pages {
      MultiplyMonotone(pages, p - 1, limit);
      assert false;
    }
    var skip := Skip(p, limit);
    assert p * limit == skip + limit;
    var w := Window(s, Skip(q, limit), limit);
    if s[i] in w {
      var j :| 0 <= j < |w| && w[j] == s[i];
      assert Skip(q, limit) + j == i;
      QuotientOf(i, limit, q - 1, j);
    }
  }

  lemma MultiplyMonotone(a: int, b: int, c: int)
    requires 0 <= a <= b && c >= 0
    ensures a * c <= b * c
  {
  }

  /** Division is exact: `q * d + r` with `0 <= r < d` has quotient `q`. */
  lemma QuotientOf(n: nat, d: int, q: int, r: int)
    requires d >= 1 && 0 <= r < d && q >= 0 && n == q * d + r
    ensures n / d == q
  {
    var q', r' := n / d, n % d;
    assert n == q' * d + r' && 0 <= r' < d;
    if q' > q {
      MultiplyMonotone(1, q' - q, d);
      assert false;
    } else if q' < q {
      MultiplyMonotone(1, q - q', d);
      assert false;
    }
  }

  /** Whether the update handler runs the validator first: only when one of
      title, description, status or priority is truthy. */
  predicate NeedsValidation(body: BugInput) {
    Truthy(body.title) || Truthy(body.description) || Truthy(body.status) || Truthy(body.priority)
  }

  /** The update handler's validation step lets the body through. */
  predicate PassesGate(body: BugInput) {
    !NeedsValidation(body) || Errors(body) == []
  }

  /** A status-only update is refused: the validator demands the title and
      the description, which such a body leaves out. */
  lemma StatusOnlyUpdateRejected()
    ensures var body := BugInput(Undefined, Undefined, Str("resolved"), Undefined, Undefined);
      NeedsValidation(body) && Errors(body) == [TitleRequired, DescriptionRequired]
  {
    var body := BugInput(Undefined, Undefined, Str("resolved"), Undefined, Undefined);
    assert ToLower("resolved") == "resolved";
    assert FieldErrors(body, Status) == [] && FieldErrors(body, Priority) == [];
    assert FieldErrors(body, Reporter) == [];
  }

  /** A title-only update is refused for want of a description. */
  lemma TitleOnlyUpdateRejected()
    ensures var body := BugInput(Str("Updated"), Undefined, Undefined, Undefined, Undefined);
      NeedsValidation(body) && Errors(body) == [DescriptionRequired]
  {
    var body := BugInput(Str("Updated"), Undefined, Undefined, Undefined, Undefined);
    TrimOfSolid("Updated");
    assert FieldErrors(body, Title) == [];
    assert FieldErrors(body, Status) == [] && FieldErrors(body, Priority) == [];
    assert FieldErrors(body, Reporter) == [];
  }

  /** A body that supplies only a reporter skips the validator; the store's
      own checks then accept any non-blank reporter, however long, so the
      validator's 100-character limit does not hold for updates. */
  lemma LongReporterUpdateAccepted(b: Bug, s: string)
    requires SchemaOk(b)
    requires |s| > MaxReporterLength && forall i :: 0 <= i < |s| ==> !IsWhitespace(s[i])
    ensures var body := BugInput(Undefined, Undefined, Undefined, Undefined, Str(s));
      && !NeedsValidation(body)
      && ValidateReporter(Str(s)).Invalid?
      && CastUpdate(body).Ok?
      && ApplyPatch(b, CastUpdate(body).value) == b.(reporter := s)
      && SchemaOk(b.(reporter := s))
  {
    var body := BugInput(Undefined, Undefined, Undefined, Undefined, Str(s));
    TrimOfSolid(s);
    UpdateKeepsSchema(b, body);
  }

  /** An empty update passes every check and leaves the record as it was. */
  lemma EmptyUpdateKeepsRecord(b: Bug)
    ensures var body := BugInput(Undefined, Undefined, Undefined, Undefined, Undefined);
      && PassesGate(body)
      && CastUpdate(body) == Ok(Patch(None, None, None, None, None))
      && ApplyPatch(b, CastUpdate(body).value) == b
  {
  }

  /** Each record is stored under its own identifier and keeps the schema. */
  ghost predicate ValidStore(m: map<string, Bug>) {
    forall k | k in m :: m[k].id == k && SchemaOk(m[k])
  }

  lemma StorePut(m: map<string, Bug>, k: string, b: Bug)
    requires ValidStore(m) && b.id == k && SchemaOk(b)
    ensures ValidStore(m[k := b])
  {
  }

  lemma StoreRemove(m: map<string, Bug>, k: string)
    requires ValidStore(m)
    ensures ValidStore(m - {k})
  {
  }

  /** The handlers over a store of bug records keyed by identifier. */
  class BugsController {
    var bugs: map<string, Bug>

    /** Each record is stored under its own identifier and keeps the schema. */
    ghost predicate Valid()
      reads this
    {
      ValidStore(bugs)
    }

    constructor ()
      ensures Valid() && bugs == map[]
    {
      bugs := map[];
    }

    /** Listing: the stored records that match the filter, in the engine's
        order for the requested sort, from position `(page - 1) * limit` on
        and at most `limit` of them, with the matching total and the page
        count. A negative skip is refused by the query engine. */
    method GetAllBugs(q: ListQuery, engine: SortSpec -> seq<string>) returns (resp: Response)
      requires Valid()
      requires q.limit.GetOr(10) >= 1
      requires IsRanking(engine(BuildSort(q)), bugs)
      ensures q.page.GetOr(1) < 1 ==> resp == Response(500, Unhandled)
      ensures q.page.GetOr(1) >= 1 ==>
        && resp.status == 200 && resp.body.Many?
        && resp.body.pagination.page == q.page.GetOr(1)
        && resp.body.pagination.limit == q.limit.GetOr(10)
        && resp.body.pagination.total == |MatchingKeys(bugs, BuildFilter(q))|
        && resp.body.pagination.pages == Pages(resp.body.pagination.total, q.limit.GetOr(10))
        && resp.body.records == ListPage(engine(BuildSort(q)), bugs, BuildFilter(q),
                                         Skip(q.page.GetOr(1), q.limit.GetOr(10)), q.limit.GetOr(10))
    {
      var filter := BuildFilter(q);
      var pageNum := q.page.GetOr(1);
      var limitNum := q.limit.GetOr(10);
      var sort := BuildSort(q);
      if pageNum < 1 {
        // the skip (pageNum - 1) * limitNum is negative, which the query engine refuses
        resp := Response(500, Unhandled);
        return;
      }
      var skip := Skip(pageNum, limitNum);
      var page := ListPage(engine(sort), bugs, filter, skip, limitNum);
      TotalCountsMatches(engine(sort), bugs, filter);
      var total := |Select(engine(sort), bugs, filter)|;
      resp := Response(200, Many(page, Pagination(pageNum, limitNum, total, Pages(total, limitNum))));
    }

    /** Lookup by identifier: malformed identifiers are refused, unknown
        ones are not found. */
    method GetBugById(id: string) returns (resp: Response)
      requires Valid()
      ensures !WellFormedId(id) ==> resp == InvalidIdFormat
      ensures WellFormedId(id) && Key(id) !in bugs ==> resp == BugNotFound
      ensures WellFormedId(id) && Key(id) in bugs ==> resp == Response(200, One(bugs[Key(id)], None))
      ensures resp.status == 200 ==> resp.body.record.id == Key(id) && SchemaOk(resp.body.record)
    {
      if !WellFormedId(id) {
        resp := InvalidIdFormat;
        return;
      }
      var key := Key(id);
      if key !in bugs {
        resp := BugNotFound;
        return;
      }
      resp := Response(200, One(bugs[key], None));
    }

    /** Creation: the validator runs first and its messages are returned on
        failure; then the store casts and checks the body and returns its
        own messages on failure; otherwise the new record is stored under
        the fresh identifier `newId`. */
    method CreateBug(bugData: BugInput, newId: string) returns (resp: Response)
      requires Valid() && StoredKey(newId) && newId !in bugs
      modifies this
      ensures Valid()
      ensures Errors(bugData) != [] ==> resp == ValidationFailed(Errors(bugData))
      ensures Errors(bugData) == [] && CastNew(bugData, newId).Err? ==>
        resp == ValidationFailed(CastNew(bugData, newId).error)
      ensures Errors(bugData) == [] && CastNew(bugData, newId).Ok? ==>
        && resp == Response(201, One(CastNew(bugData, newId).value, Some("Bug created successfully")))
        && bugs == old(bugs)[newId := CastNew(bugData, newId).value]
      ensures resp.status != 201 ==> bugs == old(bugs)
    {
      var validation := ValidateBug(bugData);
      if !validation.isValid {
        resp := ValidationFailed(validation.errors);
        return;
      }
      var created := CastNew(bugData, newId);
      if created.Err? {
        resp := ValidationFailed(created.error);
        return;
      }
      StorePut(bugs, newId, created.value);
      bugs := bugs[newId := created.value];
      resp := Response(201, One(created.value, Some("Bug created successfully")));
    }

    /** Update: the validator runs only when the gate fires; then a
        malformed identifier is refused, the supplied paths are checked by
        the store, an unknown identifier is not found, and otherwise the
        supplied fields are replaced. */
    method UpdateBug(id: string, updateData: BugInput) returns (resp: Response)
      requires Valid()
      modifies this
      ensures Valid()
      ensures !PassesGate(updateData) ==> resp == ValidationFailed(Errors(updateData))
      ensures PassesGate(updateData) && !WellFormedId(id) ==> resp == InvalidIdFormat
      ensures PassesGate(updateData) && WellFormedId(id) && CastUpdate(updateData).Err? ==>
        resp == ValidationFailed(CastUpdate(updateData).error)
      ensures PassesGate(updateData) && WellFormedId(id) && CastUpdate(updateData).Ok? ==>
        if Key(id) !in old(bugs) then resp == BugNotFound
        else
          var updated := ApplyPatch(old(bugs)[Key(id)], CastUpdate(updateData).value);
          && resp == Response(200, One(updated, Some("Bug updated successfully")))
          && bugs == old(bugs)[Key(id) := updated]
      ensures resp.status != 200 ==> bugs == old(bugs)
    {
      if NeedsValidation(updateData) {
        var validation := ValidateBug(updateData);
        if !validation.isValid {
          resp := ValidationFailed(validation.errors);
          return;
        }
      }
      if !WellFormedId(id) {
        resp := InvalidIdFormat;
        return;
      }
      var patch := CastUpdate(updateData);
      if patch.Err? {
        resp := ValidationFailed(patch.error);
        return;
      }
      var key := Key(id);
      if key !in bugs {
        resp := BugNotFound;
        return;
      }
      var updated := ApplyPatch(bugs[key], patch.value);
      UpdateKeepsSchema(bugs[key], updateData);
      StorePut(bugs, key, updated);
      bugs := bugs[key := updated];
      resp := Response(200, One(updated, Some("Bug updated successfully")));
    }

    /** Deletion: the removed record is returned and no other record changes. */
    method DeleteBug(id: string) returns (resp: Response)
      requires Valid()
      modifies this
      ensures Valid()
      ensures !WellFormedId(id) ==> resp == InvalidIdFormat && bugs == old(bugs)
      ensures WellFormedId(id) && Key(id) !in old(bugs) ==> resp == BugNotFound && bugs == old(bugs)
      ensures WellFormedId(id) && Key(id) in old(bugs) ==>
        && resp == Response(200, One(old(bugs)[Key(id)], Some("Bug deleted successfully")))
        && bugs == old(bugs) - {Key(id)}
        && |bugs| == |old(bugs)| - 1
    {
      if !WellFormedId(id) {
        resp := InvalidIdFormat;
        return;
      }
      var key := Key(id);
      if key !in bugs {
        resp := BugNotFound;
        return;
      }
      var removed := bugs[key];
      StoreRemove(bugs, key);
      bugs := bugs - {key};
      resp := Response(200, One(removed, Some("Bug deleted successfully")));
    }

    /** Status change: a falsy status is refused first, then a malformed or
        unknown identifier; the new status must then be an exact-case member
        of the enum, else the store's message is returned. */
    method UpdateBugStatus(id: string, status: JsValue) returns (resp: Response)
      requires Valid()
      modifies this
      ensures Valid()
      ensures !Truthy(status) ==> resp == StatusMissing
      ensures Truthy(status) && !WellFormedId(id) ==> resp == InvalidIdFormat
      ensures Truthy(status) && WellFormedId(id) && Key(id) !in old(bugs) ==> resp == BugNotFound
      ensures Truthy(status) && WellFormedId(id) && Key(id) in old(bugs) ==>
        if status.Str? && status.s in StatusEnum then
          var updated := old(bugs)[Key(id)].(status := status.s);
          && resp == Response(200, One(updated, Some("Bug status updated successfully")))
          && bugs == old(bugs)[Key(id) := updated]
        else
          resp == ValidationFailed([CastChoice(status, StatusEnum, "status").error])
      ensures resp.status != 200 ==> bugs == old(bugs)
    {
      if !Truthy(status) {
        resp := StatusMissing;
        return;
      }
      if !WellFormedId(id) {
        resp := InvalidIdFormat;
        return;
      }
      var key := Key(id);
      if key !in bugs {
        resp := BugNotFound;
        return;
      }
      var cast := CastChoice(status, StatusEnum, "status");
      if cast.Err? {
        resp := ValidationFailed([cast.error]);
        return;
      }
      var updated := bugs[key].(status := cast.value);
      StorePut(bugs, key, updated);
      bugs := bugs[key := updated];
      resp := Response(200, One(updated, Some("Bug status updated successfully")));
    }
  }
}
