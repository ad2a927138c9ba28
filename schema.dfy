/** The `events` and `profiles` tables, the insert validator for events,
    and the conversions from the storage form (native dates, nullable
    columns) to the wire form (ISO 8601 strings, absent instead of null). */
module Schema {
  import opened Common

  /** A row of `events` as the database driver returns it. The timestamp
      columns hold valid dates, so they are instants here. */
  datatype EventRow = EventRow(
    id: string,
    title: string,
    description: Option<string>,
    startTime: Instant,
    endTime: Instant,
    userId: string,
    createdAt: Option<Instant>,
    updatedAt: Option<Instant>)

  /** `EventClient`: the row with its dates as ISO strings and a description
      that is absent rather than null or empty. `userId` is kept. */
  datatype EventClient = EventClient(
    id: string,
    title: string,
    description: Option<string>,
    startTime: string,
    endTime: string,
    userId: string,
    createdAt: Option<string>,
    updatedAt: Option<string>)

  /** A row of `profiles`. */
  datatype ProfileRow = ProfileRow(
    id: string,
    username: string,
    fullName: Option<string>,
    avatarUrl: Option<string>,
    createdAt: Option<Instant>,
    updatedAt: Option<Instant>)

  /** `ProfileClient`: the wire form of a profile. */
  datatype ProfileClient = ProfileClient(
    id: string,
    username: string,
    fullName: Option<string>,
    avatarUrl: Option<string>,
    createdAt: Option<string>,
    updatedAt: Option<string>)

  /** `text || undefined` on a nullable text column: null and "" are falsy. */
  function OrUndefined(text: Option<string>): (r: Option<string>)
    ensures r.None? <==> text.None? || text.value == ""
    ensures r.Some? ==> r == text
  {
    if text.Some? && text.value != "" then text else None
  }

  /** `date?.toISOString()` on a nullable timestamp column. */
  function OptionalIso(t: Option<Instant>, toIso: Instant -> string): (r: Option<string>)
    ensures r.Some? <==> t.Some?
    ensures r.Some? ==> r.value == toIso(t.value)
  {
    match t
    case None => None
    case Some(v) => Some(toIso(v))
  }

  /** `toClientEvent`: the spread copies `id`, `title` and `userId`; the
      description and the four dates are replaced. */
  function ToClientEvent(e: EventRow, toIso: Instant -> string): (c: EventClient)
    ensures c.id == e.id && c.title == e.title && c.userId == e.userId
    ensures c.description.None? <==> (e.description.None? || e.description.value == "")
    ensures c.description.Some? ==> c.description == e.description
    ensures c.startTime == toIso(e.startTime) && c.endTime == toIso(e.endTime)
    ensures c.createdAt.None? <==> e.createdAt.None?
    ensures c.createdAt.Some? ==> c.createdAt.value == toIso(e.createdAt.value)
    ensures c.updatedAt.None? <==> e.updatedAt.None?
    ensures c.updatedAt.Some? ==> c.updatedAt.value == toIso(e.updatedAt.value)
  {
    EventClient(e.id, e.title, OrUndefined(e.description),
                toIso(e.startTime), toIso(e.endTime), e.userId,
                OptionalIso(e.createdAt, toIso), OptionalIso(e.updatedAt, toIso))
  }

  /** Reads an optional ISO string back into an optional instant; None inside
      Some means the string did not parse. */
  function ParseOptionalIso(s: Option<string>, parse: string -> JsDate): Option<Option<Instant>>
  {
    match s
    case None => Some(None)
    case Some(text) =>
      var d := parse(text);
      if d.ValidDate? then Some(Some(d.ms)) else None
  }

  /** The inverse direction: the storage row a wire event stands for, or
      None when one of its dates does not parse. */
  function FromClientEvent(c: EventClient, parse: string -> JsDate): (r: Option<EventRow>)
    ensures r.Some? ==> r.value.id == c.id && r.value.title == c.title && r.value.userId == c.userId
    ensures r.Some? ==> r.value.description == c.description
    ensures r.Some? <==> parse(c.startTime).ValidDate? && parse(c.endTime).ValidDate? &&
                         ParseOptionalIso(c.createdAt, parse).Some? &&
                         ParseOptionalIso(c.updatedAt, parse).Some?
  {
    var s := parse(c.startTime);
    var e := parse(c.endTime);
    var cr := ParseOptionalIso(c.createdAt, parse);
    var up := ParseOptionalIso(c.updatedAt, parse);
    if s.ValidDate? && e.ValidDate? && cr.Some? && up.Some? then
      Some(EventRow(c.id, c.title, c.description, s.ms, e.ms, c.userId, cr.value, up.value))
    else
      None
  }

  /** Whenever parsing an ISO string gives back the instant it was made from,
      converting a stored event to the wire form and reading it back loses
      nothing except an empty description, which becomes absent. */
  lemma ClientEventRoundTrip(e: EventRow, toIso: Instant -> string, parse: string -> JsDate)
    requires forall t :: parse(toIso(t)) == ValidDate(t)
    ensures FromClientEvent(ToClientEvent(e, toIso), parse) ==
            Some(e.(description := OrUndefined(e.description)))
  {
    var c := ToClientEvent(e, toIso);
    assert ParseOptionalIso(c.createdAt, parse) == Some(e.createdAt);
    assert ParseOptionalIso(c.updatedAt, parse) == Some(e.updatedAt);
  }

  /** `toClientProfile`: falsy names and avatar URLs become absent; the dates
      become optional ISO strings; `id` and `username` are copied. */
  function ToClientProfile(p: ProfileRow, toIso: Instant -> string): (c: ProfileClient)
    ensures c.id == p.id && c.username == p.username
    ensures c.fullName.None? <==> (p.fullName.None? || p.fullName.value == "")
    ensures c.fullName.Some? ==> c.fullName == p.fullName
    ensures c.avatarUrl.None? <==> (p.avatarUrl.None? || p.avatarUrl.value == "")
    ensures c.avatarUrl.Some? ==> c.avatarUrl == p.avatarUrl
    ensures c.createdAt.None? <==> p.createdAt.None?
    ensures c.createdAt.Some? ==> c.createdAt.value == toIso(p.createdAt.value)
    ensures c.updatedAt.None? <==> p.updatedAt.None?
    ensures c.updatedAt.Some? ==> c.updatedAt.value == toIso(p.updatedAt.value)
  {
    ProfileClient(p.id, p.username, OrUndefined(p.fullName), OrUndefined(p.avatarUrl),
                  OptionalIso(p.createdAt, toIso), OptionalIso(p.updatedAt, toIso))
  }

  // ---------------------------------------------------------------------
  // The insert validator
  // ---------------------------------------------------------------------

  /** A date-valued payload field: a `Date` object or a string. */
  datatype DateInput = DateValue(date: JsDate) | DateText(text: string)

  /** An insert payload as received; an absent key is None. */
  datatype InsertPayload = InsertPayload(
    id: Option<string>,
    title: Option<string>,
    description: Option<string>,
    startTime: Option<DateInput>,
    endTime: Option<DateInput>,
    userId: Option<string>,
    createdAt: Option<DateInput>,
    updatedAt: Option<DateInput>)

  /** The string checks the validator library performs, and `new Date(string)`. */
  datatype Checks = Checks(isUuid: string -> bool, isDatetime: string -> bool, parse: string -> JsDate)

  /** The keys that can fail, in the order the object schema declares them. */
  datatype Field = IdField | TitleField | StartTimeField | EndTimeField | UserIdField | CreatedAtField | UpdatedAtField

  /** A validation issue: a field that failed its own check, or the
      cross-field time-range rule, reported on a path with a message. */
  datatype Issue = InvalidField(field: Field) | InvalidRange(path: Field, message: string)

  datatype Validation = Accepted(event: InsertPayload) | Rejected(issues: seq<Issue>)

  /** The refinement's message ("the end time must be after the start time"). */
  const RangeMessage: string := "終了時間は開始時間より後である必要があります"

  /** `parseDate`: a Date is returned as it is, a string goes through `new Date`. */
  function ParseDate(v: DateInput, parse: string -> JsDate): (d: JsDate)
    ensures v.DateValue? ==> d == v.date
    ensures v.DateText? ==> d == parse(v.text)
  {
    match v
    case DateValue(date) => date
    case DateText(text) => parse(text)
  }

  /** Applying `parseDate` to its own result changes nothing. */
  lemma ParseDateIdempotent(v: DateInput, parse: string -> JsDate)
    ensures ParseDate(DateValue(ParseDate(v, parse)), parse) == ParseDate(v, parse)
  {
  }

  /** A failure that stops the object schema before the refinement runs: a
      required key missing or of the wrong kind, or an invalid Date object. */
  predicate FieldAborts(p: InsertPayload, f: Field)
  {
    match f
    case IdField => false
    case TitleField => p.title.None?
    case StartTimeField => p.startTime.None? || p.startTime.value == DateValue(InvalidDate)
    case EndTimeField => p.endTime.None? || p.endTime.value == DateValue(InvalidDate)
    case UserIdField => false
    case CreatedAtField => p.createdAt.Some? && (!p.createdAt.value.DateValue? || p.createdAt.value.date.InvalidDate?)
    case UpdatedAtField => p.updatedAt.Some? && (!p.updatedAt.value.DateValue? || p.updatedAt.value.date.InvalidDate?)
  }

  /** A string of the right kind that fails its format check: recorded, but
      the refinement still runs. */
  predicate FieldDirty(p: InsertPayload, f: Field, ck: Checks)
  {
    match f
    case IdField => p.id.Some? && !ck.isUuid(p.id.value)
    case TitleField => false
    case StartTimeField => p.startTime.Some? && p.startTime.value.DateText? && !ck.isDatetime(p.startTime.value.text)
    case EndTimeField => p.endTime.Some? && p.endTime.value.DateText? && !ck.isDatetime(p.endTime.value.text)
    case UserIdField => p.userId.Some? && !ck.isUuid(p.userId.value)
    case CreatedAtField => false
    case UpdatedAtField => false
  }

  predicate FieldFails(p: InsertPayload, f: Field, ck: Checks)
  {
    FieldAborts(p, f) || FieldDirty(p, f, ck)
  }

  predicate AnyFieldAborts(p: InsertPayload)
  {
    FieldAborts(p, TitleField) || FieldAborts(p, StartTimeField) || FieldAborts(p, EndTimeField) ||
    FieldAborts(p, CreatedAtField) || FieldAborts(p, UpdatedAtField)
  }

  /** Every key passes its own check. */
  predicate FieldsValid(p: InsertPayload, ck: Checks)
  {
    !FieldFails(p, IdField, ck) && !FieldFails(p, TitleField, ck) &&
    !FieldFails(p, StartTimeField, ck) && !FieldFails(p, EndTimeField, ck) &&
    !FieldFails(p, UserIdField, ck) && !FieldFails(p, CreatedAtField, ck) &&
    !FieldFails(p, UpdatedAtField, ck)
  }

  function IssueIf(b: bool, f: Field): seq<Issue>
  {
    if b then [InvalidField(f)] else []
  }

  /** The keys of the insert schema, in declaration order. */
  const AllFields: seq<Field> :=
    [IdField, TitleField, StartTimeField, EndTimeField, UserIdField, CreatedAtField, UpdatedAtField]

  /** One issue per failing key of `fs`, in the order of `fs`. */
  function IssuesFor(p: InsertPayload, fs: seq<Field>, ck: Checks): (r: seq<Issue>)
    ensures forall i :: 0 <= i < |r| ==> r[i].InvalidField? && r[i].field in fs && FieldFails(p, r[i].field, ck)
    ensures r == [] <==> forall j :: 0 <= j < |fs| ==> !FieldFails(p, fs[j], ck)
    ensures forall j :: 0 <= j < |fs| && FieldFails(p, fs[j], ck) ==> InvalidField(fs[j]) in r
    decreases |fs|
  {
    if fs == [] then []
    else IssueIf(FieldFails(p, fs[0], ck), fs[0]) + IssuesFor(p, fs[1..], ck)
  }

  /** Every failing key has its issue in `issues`. */
  predicate ReportsEveryFailure(p: InsertPayload, ck: Checks, issues: seq<Issue>)
  {
    forall f :: FieldFails(p, f, ck) ==> InvalidField(f) in issues
  }

  /** Where `f` stands among the keys. */
  function FieldIndex(f: Field): (j: nat)
    ensures j < |AllFields| && AllFields[j] == f
  {
    match f
    case IdField => 0
    case TitleField => 1
    case StartTimeField => 2
    case EndTimeField => 3
    case UserIdField => 4
    case CreatedAtField => 5
    case UpdatedAtField => 6
  }

  /** The per-key issues, in declaration order: an issue for every failing
      key and for no other. */
  function FieldIssues(p: InsertPayload, ck: Checks): (r: seq<Issue>)
    ensures forall i :: 0 <= i < |r| ==> r[i].InvalidField? && FieldFails(p, r[i].field, ck)
    ensures ReportsEveryFailure(p, ck, r)
    ensures r == [] <==> FieldsValid(p, ck)
  {
    var r := IssuesFor(p, AllFields, ck);
    assert FieldsValid(p, ck) <==> forall j :: 0 <= j < |AllFields| ==> !FieldFails(p, AllFields[j], ck);
    forall f | FieldFails(p, f, ck)
      ensures InvalidField(f) in r
    {
      var j := FieldIndex(f);
    }
    r
  }

  /** When nothing aborts, both dates are present. */
  lemma NotAbortingHasDates(p: InsertPayload)
    requires !AnyFieldAborts(p)
    ensures p.startTime.Some? && p.endTime.Some?
  {
    assert !FieldAborts(p, StartTimeField) && !FieldAborts(p, EndTimeField);
  }

  /** The refinement: both dates are normalised with `parseDate` and the
      start must be strictly before the end. */
  function StrictlyOrdered(start: DateInput, end: DateInput, parse: string -> JsDate): (b: bool)
    ensures b <==> ParseDate(start, parse).ValidDate? && ParseDate(end, parse).ValidDate? &&
                   ParseDate(start, parse).ms < ParseDate(end, parse).ms
    ensures ParseDate(start, parse) == ParseDate(end, parse) ==> !b
  {
    DateLess(ParseDate(start, parse), ParseDate(end, parse))
  }

  /** Every refinement issue is the one on `endTime`. */
  predicate RangeIssuesOnEnd(issues: seq<Issue>)
  {
    forall i :: 0 <= i < |issues| && issues[i].InvalidRange? ==> issues[i] == InvalidRange(EndTimeField, RangeMessage)
  }

  lemma RangeIssuesAppended(issues: seq<Issue>, range: seq<Issue>)
    requires forall i :: 0 <= i < |issues| ==> issues[i].InvalidField?
    requires range == [] || range == [InvalidRange(EndTimeField, RangeMessage)]
    ensures RangeIssuesOnEnd(issues + range)
    ensures InvalidRange(EndTimeField, RangeMessage) in issues + range <==> range != []
    ensures forall x :: x in issues ==> x in issues + range
  {
    var all := issues + range;
    if range != [] {
      assert all[|issues|] == range[0];
    }
    forall i | 0 <= i < |all| && all[i].InvalidRange?
      ensures all[i] == InvalidRange(EndTimeField, RangeMessage)
    {
      assert i >= |issues|;
      assert all[i] == range[i - |issues|];
    }
  }

  /** How `safeParse` ends once the per-key issues are known: `refined` is
      None when a key aborted (the refinement never runs), otherwise whether
      the refinement held. The refinement's issue comes after the per-key
      ones. */
  function Conclude(p: InsertPayload, issues: seq<Issue>, refined: Option<bool>): (r: Validation)
    requires forall i :: 0 <= i < |issues| ==> issues[i].InvalidField?
    requires refined.None? ==> issues != []
    ensures r.Accepted? <==> issues == [] && refined == Some(true)
    ensures r.Accepted? ==> r.event == p
    ensures r.Rejected? ==> r.issues != [] && RangeIssuesOnEnd(r.issues)
    ensures r.Rejected? ==> forall x :: x in issues ==> x in r.issues
    ensures r.Rejected? ==> forall i :: 0 <= i < |r.issues| && r.issues[i].InvalidField? ==> r.issues[i] in issues
    ensures refined.None? ==> r == Rejected(issues)
    ensures refined.Some? ==>
              (refined == Some(false) <==> r.Rejected? && InvalidRange(EndTimeField, RangeMessage) in r.issues)
    ensures refined == Some(false) && issues == [] ==> r == Rejected([InvalidRange(EndTimeField, RangeMessage)])
  {
    if refined.None? then
      RangeIssuesAppended(issues, []);
      assert issues + [] == issues;
      Rejected(issues)
    else
      var range := if refined.value then [] else [InvalidRange(EndTimeField, RangeMessage)];
      var all := issues + range;
      RangeIssuesAppended(issues, range);
      if all == [] then Accepted(p) else Rejected(all)
  }

  /** Every per-key issue in `issues` names a key that fails. */
  predicate ReportsOnlyFailures(p: InsertPayload, ck: Checks, issues: seq<Issue>)
  {
    forall i :: 0 <= i < |issues| && issues[i].InvalidField? ==> FieldFails(p, issues[i].field, ck)
  }

  /** The per-key issues survive into the verdict, and no other per-key
      issue joins them. */
  lemma KeptIssues(p: InsertPayload, ck: Checks, issues: seq<Issue>, r: Validation)
    requires ReportsEveryFailure(p, ck, issues)
    requires forall i :: 0 <= i < |issues| ==> issues[i].InvalidField? && FieldFails(p, issues[i].field, ck)
    requires r.Rejected? ==> forall x :: x in issues ==> x in r.issues
    requires r.Rejected? ==> forall i :: 0 <= i < |r.issues| && r.issues[i].InvalidField? ==> r.issues[i] in issues
    ensures r.Rejected? ==> ReportsEveryFailure(p, ck, r.issues)
    ensures r.Rejected? ==> ReportsOnlyFailures(p, ck, r.issues)
  {
    if r.Rejected? {
      forall i | 0 <= i < |r.issues| && r.issues[i].InvalidField?
        ensures FieldFails(p, r.issues[i].field, ck)
      {
        var j :| 0 <= j < |issues| && issues[j] == r.issues[i];
      }
    }
  }

  /** `insertEventSchema.safeParse`. */
  function ValidateInsert(p: InsertPayload, ck: Checks): (r: Validation)
    ensures r.Accepted? <==> FieldsValid(p, ck) && StrictlyOrdered(p.startTime.value, p.endTime.value, ck.parse)
    ensures r.Accepted? ==> r.event == p
    ensures r.Rejected? ==> r.issues != []
    ensures r.Rejected? && FieldsValid(p, ck) ==> r.issues == [InvalidRange(EndTimeField, RangeMessage)]
    ensures r.Rejected? ==> RangeIssuesOnEnd(r.issues)
    ensures r.Rejected? ==> ReportsEveryFailure(p, ck, r.issues)
    ensures r.Rejected? ==> ReportsOnlyFailures(p, ck, r.issues)
    ensures AnyFieldAborts(p) ==> r.Rejected? && forall i :: 0 <= i < |r.issues| ==> r.issues[i].InvalidField?
    ensures !AnyFieldAborts(p) && p.startTime.Some? && p.endTime.Some? ==>
              (!StrictlyOrdered(p.startTime.value, p.endTime.value, ck.parse) <==>
               r.Rejected? && InvalidRange(EndTimeField, RangeMessage) in r.issues)
  {
    var issues := FieldIssues(p, ck);
    var refined := if AnyFieldAborts(p) then None
                   else (NotAbortingHasDates(p);
                         Some(StrictlyOrdered(p.startTime.value, p.endTime.value, ck.parse)));
    assert AnyFieldAborts(p) ==> !FieldsValid(p, ck);
    var r := Conclude(p, issues, refined);
    KeptIssues(p, ck, issues, r);
    r
  }

  /** A date string that fails the format check is recorded and does not
      stop the refinement: a malformed start after the end gets both
      issues. */
  lemma DirtyStillRangeChecked(p: InsertPayload, ck: Checks)
    requires !AnyFieldAborts(p) && FieldDirty(p, StartTimeField, ck)
    requires !StrictlyOrdered(p.startTime.value, p.endTime.value, ck.parse)
    ensures ValidateInsert(p, ck).Rejected?
    ensures InvalidField(StartTimeField) in ValidateInsert(p, ck).issues
    ensures InvalidRange(EndTimeField, RangeMessage) in ValidateInsert(p, ck).issues
  {
    NotAbortingHasDates(p);
  }

  /** Equal instants are rejected, with the single issue on `endTime`,
      however the two dates are written. */
  lemma EqualInstantsRejected(p: InsertPayload, ck: Checks)
    requires FieldsValid(p, ck)
    requires ParseDate(p.startTime.value, ck.parse) == ParseDate(p.endTime.value, ck.parse)
    ensures ValidateInsert(p, ck) == Rejected([InvalidRange(EndTimeField, RangeMessage)])
  {
  }

  /** A start string whose `new Date` is not valid never passes, even when
      the string check accepted it. */
  lemma UnparsableStartRejected(p: InsertPayload, ck: Checks)
    requires p.startTime.Some? && p.startTime.value.DateText?
    requires ck.parse(p.startTime.value.text) == InvalidDate
    ensures ValidateInsert(p, ck).Rejected?
  {
  }

  /** The schema requires a title string but does not look at its
      contents: replacing a present title by any other string, the empty
      one included, never changes the verdict. */
  lemma TitleContentNotChecked(p: InsertPayload, ck: Checks, t: string)
    requires p.title.Some?
    ensures ValidateInsert(p.(title := Some(t)), ck).Accepted? == ValidateInsert(p, ck).Accepted?
  {
    var q := p.(title := Some(t));
    assert FieldsValid(q, ck) == FieldsValid(p, ck);
  }
}
