/**
 * The columns a partial update may set, and which values the query
 * builder and the database accept for each.
 *
 * An update record is the map the PATCH handlers build from the request
 * body. A value can be bound to a column when it is null or of the
 * column's type. `text` takes a string, `integer` a number within 32
 * bits, `boolean` a boolean, `text[]` an array of strings, and an enum
 * column one of its labels. A `timestamp` column takes only a `Date`: its
 * encoder calls `toISOString` on the value. Binding happens before any
 * row is looked at. A null in a NOT NULL column fails only once a row
 * matches.
 *
 * `Decode*Patch` reads an update record into a patch exactly when every
 * value fits and no NOT NULL column is cleared. `Encode*Patch` writes a
 * patch back, and the two are inverse.
 */
module Columns {
  import opened Wrappers
  import opened Schema
  import opened JsonValues

  // ---------------------------------------------------------------- the column table

  datatype ColumnType =
    | TextColumn
    | IntegerColumn
    | BooleanColumn
    | TimestampColumn
    | TextArrayColumn
    | ApplicationStatusColumn
    | InterviewTypeColumn
    | InterviewStatusColumn
    | ResourceCategoryColumn
    | QuestionTypeColumn

  datatype Column = Column(name: string, ty: ColumnType, notNull: bool)

  const ApplicationFieldColumns: seq<Column> := [
    Column("companyName", TextColumn, true),
    Column("positionTitle", TextColumn, true),
    Column("jobUrl", TextColumn, false),
    Column("logoUrl", TextColumn, false),
    Column("status", ApplicationStatusColumn, true),
    Column("salaryMin", IntegerColumn, false),
    Column("salaryMax", IntegerColumn, false),
    Column("location", TextColumn, false),
    Column("isRemote", BooleanColumn, false),
    Column("applicationDate", TimestampColumn, true),
    Column("notes", TextColumn, false)]

  const InterviewFieldColumns: seq<Column> := [
    Column("applicationId", TextColumn, true),
    Column("interviewType", InterviewTypeColumn, true),
    Column("interviewDate", TimestampColumn, true),
    Column("durationMinutes", IntegerColumn, false),
    Column("interviewerNames", TextColumn, false),
    Column("platform", TextColumn, false),
    Column("status", InterviewStatusColumn, true),
    Column("prepNotes", TextColumn, false),
    Column("interviewNotes", TextColumn, false),
    Column("questionsAsked", TextColumn, false),
    Column("rating", IntegerColumn, false),
    Column("followUpActions", TextColumn, false)]

  const ResourceFieldColumns: seq<Column> := [
    Column("title", TextColumn, true),
    Column("url", TextColumn, false),
    Column("category", ResourceCategoryColumn, true),
    Column("notes", TextColumn, false),
    Column("isReviewed", BooleanColumn, false),
    Column("linkedApplicationId", TextColumn, false)]

  const QuestionFieldColumns: seq<Column> := [
    Column("questionText", TextColumn, true),
    Column("answerText", TextColumn, false),
    Column("questionType", QuestionTypeColumn, true),
    Column("isFavorite", BooleanColumn, false),
    Column("tags", TextArrayColumn, false)]

  // ---------------------------------------------------------------- which values fit

  const MinInt32 := -0x8000_0000
  const MaxInt32 := 0x7FFF_FFFF

  predicate IsInt32(n: int) {
    MinInt32 <= n <= MaxInt32
  }

  predicate AllStrings(items: seq<Json>) {
    forall i :: 0 <= i < |items| ==> items[i].JString?
  }

  /** A non-null value the column's type holds. */
  predicate HasType(ty: ColumnType, j: Json) {
    match ty
    case TextColumn => j.JString?
    case IntegerColumn => j.JNumber? && IsInt32(j.n)
    case BooleanColumn => j.JBool?
    case TimestampColumn => j.JDate?
    case TextArrayColumn => j.JArray? && AllStrings(j.items)
    case ApplicationStatusColumn => j.JString? && ParseApplicationStatus(j.s).Some?
    case InterviewTypeColumn => j.JString? && ParseInterviewType(j.s).Some?
    case InterviewStatusColumn => j.JString? && ParseInterviewStatus(j.s).Some?
    case ResourceCategoryColumn => j.JString? && ParseResourceCategory(j.s).Some?
    case QuestionTypeColumn => j.JString? && ParseQuestionType(j.s).Some?
  }

  /** A value that can be bound to the column. */
  predicate Fits(c: Column, j: Json) {
    j.JNull? || HasType(c.ty, j)
  }

  /** The record's value for `c`, if it has one, can be bound to `c`. */
  predicate FieldFits(u: Body, c: Column) {
    c.name in u ==> Fits(c, u[c.name])
  }

  /** The record sets `c` to null although `c` is NOT NULL. */
  predicate FieldClears(u: Body, c: Column) {
    c.notNull && c.name in u && u[c.name].JNull?
  }

  /** Every value of the record can be bound to its column. */
  predicate FitsColumns(u: Body, cols: seq<Column>) {
    forall i :: 0 <= i < |cols| ==> FieldFits(u, cols[i])
  }

  /** The record sets a NOT NULL column to null. */
  predicate ClearsRequired(u: Body, cols: seq<Column>) {
    exists i :: 0 <= i < |cols| && FieldClears(u, cols[i])
  }

  /** The fields of `u` that `names` lists, with their values. */
  ghost function Picked(u: Body, names: seq<string>): Body {
    map f | f in u && f in names :: u[f]
  }

  // ---------------------------------------------------------------- writing a value

  function NullableText(v: Option<string>): Json {
    if v.Some? then JString(v.value) else JNull
  }

  function NullableNumber(v: Option<int>): Json {
    if v.Some? then JNumber(v.value) else JNull
  }

  function NullableFlag(v: Option<bool>): Json {
    if v.Some? then JBool(v.value) else JNull
  }

  function TextArray(items: seq<string>): (j: Json)
    ensures j.JArray? && |j.items| == |items|
    ensures forall i :: 0 <= i < |items| ==> j.items[i] == JString(items[i])
  {
    JArray(seq(|items|, i requires 0 <= i < |items| => JString(items[i])))
  }

  function NullableTextArray(v: Option<seq<string>>): Json {
    if v.Some? then TextArray(v.value) else JNull
  }

  // ---------------------------------------------------------------- reading a value

  function AsString(j: Json): (r: Option<string>)
    ensures r.Some? <==> j.JString?
    ensures r.Some? ==> j == JString(r.value)
  {
    if j.JString? then Some(j.s) else None
  }

  function AsNullableString(j: Json): (r: Option<Option<string>>)
    ensures r.Some? <==> j.JNull? || j.JString?
    ensures r.Some? ==> NullableText(r.value) == j
  {
    if j.JNull? then Some(None) else if j.JString? then Some(Some(j.s)) else None
  }

  function AsNullableInt32(j: Json): (r: Option<Option<int>>)
    ensures r.Some? <==> j.JNull? || (j.JNumber? && IsInt32(j.n))
    ensures r.Some? ==> NullableNumber(r.value) == j
  {
    if j.JNull? then Some(None) else if j.JNumber? && IsInt32(j.n) then Some(Some(j.n)) else None
  }

  function AsNullableBool(j: Json): (r: Option<Option<bool>>)
    ensures r.Some? <==> j.JNull? || j.JBool?
    ensures r.Some? ==> NullableFlag(r.value) == j
  {
    if j.JNull? then Some(None) else if j.JBool? then Some(Some(j.b)) else None
  }

  /** An array written from strings reads back as the same strings. */
  lemma ReadTextArray(items: seq<string>)
    ensures AsNullableStringArray(TextArray(items)) == Some(Some(items))
  {
    var j := TextArray(items);
    assert AllStrings(j.items);
    var back := AsStrings(j.items).value;
    assert TextArray(back) == j;
    assert |back| == |items|;
    forall i | 0 <= i < |items| ensures back[i] == items[i] {
      assert TextArray(back).items[i] == JString(back[i]);
    }
    assert back == items;
  }

  /** A timestamp: only a `Date` has the `toISOString` the column's encoder calls. */
  function AsTimestamp(j: Json): (r: Option<Time>)
    ensures r.Some? <==> j.JDate?
    ensures r.Some? ==> j == JDate(r.value)
  {
    if j.JDate? then Some(j.t) else None
  }

  /** A non-empty array holds only strings exactly when its head and its tail do. */
  lemma AllStringsCons(items: seq<Json>)
    requires items != []
    ensures AllStrings(items) <==> items[0].JString? && AllStrings(items[1..])
  {
    if items[0].JString? && AllStrings(items[1..]) {
      forall i | 0 <= i < |items| ensures items[i].JString? {
        if i > 0 {
          assert items[i] == items[1..][i - 1];
        }
      }
    }
  }

  /** Writing a string in front of an array writes it in front of the array's items. */
  lemma TextArrayCons(s: string, rest: seq<string>)
    ensures TextArray([s] + rest).items == [JString(s)] + TextArray(rest).items
  {
    var a := TextArray([s] + rest).items;
    var b := [JString(s)] + TextArray(rest).items;
    assert |a| == |b|;
    forall i | 0 <= i < |a| ensures a[i] == b[i] {
      if i > 0 {
        assert ([s] + rest)[i] == rest[i - 1];
      }
    }
  }

  function AsStrings(items: seq<Json>): (r: Option<seq<string>>)
    ensures r.Some? <==> AllStrings(items)
    ensures r.Some? ==> TextArray(r.value) == JArray(items)
    decreases |items|
  {
    if items == [] then Some([])
    else
      AllStringsCons(items);
      if !items[0].JString? then None
      else
        match AsStrings(items[1..])
        case None => None
        case Some(rest) =>
          TextArrayCons(items[0].s, rest);
          assert items == [items[0]] + items[1..];
          Some([items[0].s] + rest)
  }

  function AsNullableStringArray(j: Json): (r: Option<Option<seq<string>>>)
    ensures r.Some? <==> j.JNull? || (j.JArray? && AllStrings(j.items))
    ensures r.Some? ==> NullableTextArray(r.value) == j
  {
    if j.JNull? then Some(None)
    else if j.JArray? then
      match AsStrings(j.items)
      case None => None
      case Some(items) => Some(Some(items))
    else None
  }

  function AsApplicationStatus(j: Json): (r: Option<ApplicationStatus>)
    ensures r.Some? <==> j.JString? && ParseApplicationStatus(j.s).Some?
    ensures r.Some? ==> j == JString(ApplicationStatusName(r.value))
  {
    if j.JString? then ParseApplicationStatus(j.s) else None
  }

  function AsInterviewType(j: Json): (r: Option<InterviewType>)
    ensures r.Some? <==> j.JString? && ParseInterviewType(j.s).Some?
    ensures r.Some? ==> j == JString(InterviewTypeName(r.value))
  {
    if j.JString? then ParseInterviewType(j.s) else None
  }

  function AsInterviewStatus(j: Json): (r: Option<InterviewStatus>)
    ensures r.Some? <==> j.JString? && ParseInterviewStatus(j.s).Some?
    ensures r.Some? ==> j == JString(InterviewStatusName(r.value))
  {
    if j.JString? then ParseInterviewStatus(j.s) else None
  }

  function AsResourceCategory(j: Json): (r: Option<ResourceCategory>)
    ensures r.Some? <==> j.JString? && ParseResourceCategory(j.s).Some?
    ensures r.Some? ==> j == JString(ResourceCategoryName(r.value))
  {
    if j.JString? then ParseResourceCategory(j.s) else None
  }

  function AsQuestionType(j: Json): (r: Option<QuestionType>)
    ensures r.Some? <==> j.JString? && ParseQuestionType(j.s).Some?
    ensures r.Some? ==> j == JString(QuestionTypeName(r.value))
  {
    if j.JString? then ParseQuestionType(j.s) else None
  }

  /**
   * One field of an update record: `Some(None)` when the field is absent
   * (nothing to set), `Some(Some(v))` when its value reads as `v`, and
   * `None` when it does not.
   */
  function Field<T>(u: Body, name: string, decode: Json -> Option<T>): (r: Option<Option<T>>)
    ensures name !in u ==> r == Some(None)
    ensures name in u ==> (r.Some? <==> decode(u[name]).Some?)
    ensures name in u && r.Some? ==> r.value == Some(decode(u[name]).value)
  {
    if name !in u then Some(None)
    else match decode(u[name])
      case None => None
      case Some(v) => Some(Some(v))
  }

  // ---------------------------------------------------------------- applications

  /** The value a patch sets `name` to, if it sets it. */
  function ApplicationEntry(p: ApplicationPatch, name: string): Option<Json> {
    if name == "companyName" then (if p.companyName.Some? then Some(JString(p.companyName.value)) else None)
    else if name == "positionTitle" then (if p.positionTitle.Some? then Some(JString(p.positionTitle.value)) else None)
    else if name == "jobUrl" then (if p.jobUrl.Some? then Some(NullableText(p.jobUrl.value)) else None)
    else if name == "logoUrl" then (if p.logoUrl.Some? then Some(NullableText(p.logoUrl.value)) else None)
    else if name == "status" then (if p.status.Some? then Some(JString(ApplicationStatusName(p.status.value))) else None)
    else if name == "salaryMin" then (if p.salaryMin.Some? then Some(NullableNumber(p.salaryMin.value)) else None)
    else if name == "salaryMax" then (if p.salaryMax.Some? then Some(NullableNumber(p.salaryMax.value)) else None)
    else if name == "location" then (if p.location.Some? then Some(NullableText(p.location.value)) else None)
    else if name == "isRemote" then (if p.isRemote.Some? then Some(NullableFlag(p.isRemote.value)) else None)
    else if name == "applicationDate" then (if p.applicationDate.Some? then Some(JDate(p.applicationDate.value)) else None)
    else if name == "notes" then (if p.notes.Some? then Some(NullableText(p.notes.value)) else None)
    else None
  }

  /** The update record a patch stands for: one entry per field it sets. */
  function EncodeApplicationPatch(p: ApplicationPatch): Body {
    map k | k in ApplicationInsertFields && ApplicationEntry(p, k).Some? :: ApplicationEntry(p, k).value
  }

  /** The patch's numbers fit their `integer` columns. */
  predicate ApplicationPatchFits(p: ApplicationPatch) {
    && (p.salaryMin.Some? && p.salaryMin.value.Some? ==> IsInt32(p.salaryMin.value.value))
    && (p.salaryMax.Some? && p.salaryMax.value.Some? ==> IsInt32(p.salaryMax.value.value))
  }

  /** A record whose application date is a string does not fit: the column takes only a `Date`. */
  lemma ApplicationDateStringDoesNotFit(u: Body)
    requires "applicationDate" in u && u["applicationDate"].JString?
    ensures !FitsColumns(u, ApplicationFieldColumns) && DecodeApplicationPatch(u).None?
  {
    assert ApplicationFieldColumns[9] == Column("applicationDate", TimestampColumn, true);
    assert !FieldFits(u, ApplicationFieldColumns[9]);
  }

  /** The column checks of an update record, one column at a time. */
  lemma ApplicationColumnsSpelledOut(u: Body)
    ensures FitsColumns(u, ApplicationFieldColumns) <==>
      FieldFits(u, Column("companyName", TextColumn, true)) && FieldFits(u, Column("positionTitle", TextColumn, true)) && FieldFits(u, Column("jobUrl", TextColumn, false)) && FieldFits(u, Column("logoUrl", TextColumn, false)) && FieldFits(u, Column("status", ApplicationStatusColumn, true)) && FieldFits(u, Column("salaryMin", IntegerColumn, false)) && FieldFits(u, Column("salaryMax", IntegerColumn, false)) && FieldFits(u, Column("location", TextColumn, false)) && FieldFits(u, Column("isRemote", BooleanColumn, false)) && FieldFits(u, Column("applicationDate", TimestampColumn, true)) && FieldFits(u, Column("notes", TextColumn, false))
    ensures ClearsRequired(u, ApplicationFieldColumns) <==>
      FieldClears(u, Column("companyName", TextColumn, true)) || FieldClears(u, Column("positionTitle", TextColumn, true)) || FieldClears(u, Column("status", ApplicationStatusColumn, true)) || FieldClears(u, Column("applicationDate", TimestampColumn, true))
  {
    var cols := ApplicationFieldColumns;
    assert cols[0] == Column("companyName", TextColumn, true);
    assert cols[1] == Column("positionTitle", TextColumn, true);
    assert cols[2] == Column("jobUrl", TextColumn, false);
    assert cols[3] == Column("logoUrl", TextColumn, false);
    assert cols[4] == Column("status", ApplicationStatusColumn, true);
    assert cols[5] == Column("salaryMin", IntegerColumn, false);
    assert cols[6] == Column("salaryMax", IntegerColumn, false);
    assert cols[7] == Column("location", TextColumn, false);
    assert cols[8] == Column("isRemote", BooleanColumn, false);
    assert cols[9] == Column("applicationDate", TimestampColumn, true);
    assert cols[10] == Column("notes", TextColumn, false);
    if forall k :: 0 <= k < 11 ==> FieldFits(u, cols[k]) {
      assert FitsColumns(u, cols);
    }
    if ClearsRequired(u, cols) {
      var i :| 0 <= i < |cols| && FieldClears(u, cols[i]);
      assert i == 0 || i == 1 || i == 4 || i == 9;
    }
  }

  /**
   * The patch an update record stands for: `None` when a value cannot be
   * bound to its column or a NOT NULL column is set to null.
   */
  function DecodeApplicationPatch(u: Body): (r: Option<ApplicationPatch>)
    ensures r.Some? <==> FitsColumns(u, ApplicationFieldColumns) && !ClearsRequired(u, ApplicationFieldColumns)
  {
    ApplicationColumnsSpelledOut(u);
    var companyName := Field(u, "companyName", AsString);
    var positionTitle := Field(u, "positionTitle", AsString);
    var jobUrl := Field(u, "jobUrl", AsNullableString);
    var logoUrl := Field(u, "logoUrl", AsNullableString);
    var status := Field(u, "status", AsApplicationStatus);
    var salaryMin := Field(u, "salaryMin", AsNullableInt32);
    var salaryMax := Field(u, "salaryMax", AsNullableInt32);
    var location := Field(u, "location", AsNullableString);
    var isRemote := Field(u, "isRemote", AsNullableBool);
    var applicationDate := Field(u, "applicationDate", AsTimestamp);
    var notes := Field(u, "notes", AsNullableString);
    if companyName.Some? && positionTitle.Some? && jobUrl.Some? && logoUrl.Some? && status.Some? && salaryMin.Some? && salaryMax.Some? && location.Some? && isRemote.Some? && applicationDate.Some? && notes.Some?
    then Some(ApplicationPatch(companyName.value, positionTitle.value, jobUrl.value, logoUrl.value, status.value, salaryMin.value, salaryMax.value, location.value, isRemote.value, applicationDate.value, notes.value))
    else None
  }

  /** A record that decodes is the encoding of its patch, restricted to the insert fields. */
  lemma DecodeApplicationPatchEncodes(u: Body)
    requires DecodeApplicationPatch(u).Some?
    ensures EncodeApplicationPatch(DecodeApplicationPatch(u).value) == Picked(u, ApplicationInsertFields)
  {
    var p := DecodeApplicationPatch(u).value;
    forall k | k in ApplicationInsertFields
      ensures ApplicationEntry(p, k) == if k in u then Some(u[k]) else None
    {
      ApplicationEntryDecoded(u, k);
    }
  }

  /** One field of a decoded record, written back. */
  lemma ApplicationEntryDecoded(u: Body, k: string)
    requires DecodeApplicationPatch(u).Some? && k in ApplicationInsertFields
    ensures ApplicationEntry(DecodeApplicationPatch(u).value, k) == if k in u then Some(u[k]) else None
  {
    var p := DecodeApplicationPatch(u).value;
    if k == "companyName" {
      assert p.companyName == Field(u, "companyName", AsString).value;
    } else if k == "positionTitle" {
      assert p.positionTitle == Field(u, "positionTitle", AsString).value;
    } else if k == "jobUrl" {
      assert p.jobUrl == Field(u, "jobUrl", AsNullableString).value;
    } else if k == "logoUrl" {
      assert p.logoUrl == Field(u, "logoUrl", AsNullableString).value;
    } else if k == "status" {
      assert p.status == Field(u, "status", AsApplicationStatus).value;
    } else if k == "salaryMin" {
      assert p.salaryMin == Field(u, "salaryMin", AsNullableInt32).value;
    } else if k == "salaryMax" {
      assert p.salaryMax == Field(u, "salaryMax", AsNullableInt32).value;
    } else if k == "location" {
      assert p.location == Field(u, "location", AsNullableString).value;
    } else if k == "isRemote" {
      assert p.isRemote == Field(u, "isRemote", AsNullableBool).value;
    } else if k == "applicationDate" {
      assert p.applicationDate == Field(u, "applicationDate", AsTimestamp).value;
    } else if k == "notes" {
      assert p.notes == Field(u, "notes", AsNullableString).value;
    }
  }

  lemma ApplicationEntryEncoded(p: ApplicationPatch, k: string)
    requires k in ApplicationInsertFields
    ensures k in EncodeApplicationPatch(p) <==> ApplicationEntry(p, k).Some?
    ensures k in EncodeApplicationPatch(p) ==> EncodeApplicationPatch(p)[k] == ApplicationEntry(p, k).value
  {
  }

  /** A record decodes to the patch whose fields it reads as. */
  lemma ApplicationDecodesFromFields(u: Body, p: ApplicationPatch)
    requires Field(u, "companyName", AsString) == Some(p.companyName)
    requires Field(u, "positionTitle", AsString) == Some(p.positionTitle)
    requires Field(u, "jobUrl", AsNullableString) == Some(p.jobUrl)
    requires Field(u, "logoUrl", AsNullableString) == Some(p.logoUrl)
    requires Field(u, "status", AsApplicationStatus) == Some(p.status)
    requires Field(u, "salaryMin", AsNullableInt32) == Some(p.salaryMin)
    requires Field(u, "salaryMax", AsNullableInt32) == Some(p.salaryMax)
    requires Field(u, "location", AsNullableString) == Some(p.location)
    requires Field(u, "isRemote", AsNullableBool) == Some(p.isRemote)
    requires Field(u, "applicationDate", AsTimestamp) == Some(p.applicationDate)
    requires Field(u, "notes", AsNullableString) == Some(p.notes)
    ensures DecodeApplicationPatch(u) == Some(p)
  {
  }

  lemma ApplicationFieldsEncoded1(p: ApplicationPatch)
    requires ApplicationPatchFits(p)
    ensures Field(EncodeApplicationPatch(p), "companyName", AsString) == Some(p.companyName)
    ensures Field(EncodeApplicationPatch(p), "positionTitle", AsString) == Some(p.positionTitle)
    ensures Field(EncodeApplicationPatch(p), "jobUrl", AsNullableString) == Some(p.jobUrl)
    ensures Field(EncodeApplicationPatch(p), "logoUrl", AsNullableString) == Some(p.logoUrl)
  {
    ApplicationEntryEncoded(p, "companyName");
    ApplicationEntryEncoded(p, "positionTitle");
    ApplicationEntryEncoded(p, "jobUrl");
    ApplicationEntryEncoded(p, "logoUrl");
  }

  lemma ApplicationFieldsEncoded2(p: ApplicationPatch)
    requires ApplicationPatchFits(p)
    ensures Field(EncodeApplicationPatch(p), "status", AsApplicationStatus) == Some(p.status)
    ensures Field(EncodeApplicationPatch(p), "salaryMin", AsNullableInt32) == Some(p.salaryMin)
    ensures Field(EncodeApplicationPatch(p), "salaryMax", AsNullableInt32) == Some(p.salaryMax)
    ensures Field(EncodeApplicationPatch(p), "location", AsNullableString) == Some(p.location)
  {
    ApplicationEntryEncoded(p, "status");
    ApplicationStatusesAreExact();
    ApplicationEntryEncoded(p, "salaryMin");
    ApplicationEntryEncoded(p, "salaryMax");
    ApplicationEntryEncoded(p, "location");
  }

  lemma ApplicationFieldsEncoded3(p: ApplicationPatch)
    requires ApplicationPatchFits(p)
    ensures Field(EncodeApplicationPatch(p), "isRemote", AsNullableBool) == Some(p.isRemote)
    ensures Field(EncodeApplicationPatch(p), "applicationDate", AsTimestamp) == Some(p.applicationDate)
    ensures Field(EncodeApplicationPatch(p), "notes", AsNullableString) == Some(p.notes)
  {
    ApplicationEntryEncoded(p, "isRemote");
    ApplicationEntryEncoded(p, "applicationDate");
    ApplicationEntryEncoded(p, "notes");
  }

  /** Encoding a patch whose numbers fit and decoding the record gives the patch back. */
  lemma DecodeEncodeApplicationPatch(p: ApplicationPatch)
    requires ApplicationPatchFits(p)
    ensures DecodeApplicationPatch(EncodeApplicationPatch(p)) == Some(p)
  {
    ApplicationFieldsEncoded1(p);
    ApplicationFieldsEncoded2(p);
    ApplicationFieldsEncoded3(p);
    ApplicationDecodesFromFields(EncodeApplicationPatch(p), p);
  }

  /** The empty record is the empty patch. */
  lemma EmptyApplicationRecord()
    ensures DecodeApplicationPatch(map[]) == Some(EmptyApplicationPatch)
    ensures EncodeApplicationPatch(EmptyApplicationPatch) == map[]
  {
  }

  // ---------------------------------------------------------------- interviews

  /** The value a patch sets `name` to, if it sets it. */
  function InterviewEntry(p: InterviewPatch, name: string): Option<Json> {
    if name == "applicationId" then (if p.applicationId.Some? then Some(JString(p.applicationId.value)) else None)
    else if name == "interviewType" then (if p.interviewType.Some? then Some(JString(InterviewTypeName(p.interviewType.value))) else None)
    else if name == "interviewDate" then (if p.interviewDate.Some? then Some(JDate(p.interviewDate.value)) else None)
    else if name == "durationMinutes" then (if p.durationMinutes.Some? then Some(NullableNumber(p.durationMinutes.value)) else None)
    else if name == "interviewerNames" then (if p.interviewerNames.Some? then Some(NullableText(p.interviewerNames.value)) else None)
    else if name == "platform" then (if p.platform.Some? then Some(NullableText(p.platform.value)) else None)
    else if name == "status" then (if p.status.Some? then Some(JString(InterviewStatusName(p.status.value))) else None)
    else if name == "prepNotes" then (if p.prepNotes.Some? then Some(NullableText(p.prepNotes.value)) else None)
    else if name == "interviewNotes" then (if p.interviewNotes.Some? then Some(NullableText(p.interviewNotes.value)) else None)
    else if name == "questionsAsked" then (if p.questionsAsked.Some? then Some(NullableText(p.questionsAsked.value)) else None)
    else if name == "rating" then (if p.rating.Some? then Some(NullableNumber(p.rating.value)) else None)
    else if name == "followUpActions" then (if p.followUpActions.Some? then Some(NullableText(p.followUpActions.value)) else None)
    else None
  }

  /** The update record a patch stands for: one entry per field it sets. */
  function EncodeInterviewPatch(p: InterviewPatch): Body {
    map k | k in InterviewInsertFields && InterviewEntry(p, k).Some? :: InterviewEntry(p, k).value
  }

  /** The patch's numbers fit their `integer` columns. */
  predicate InterviewPatchFits(p: InterviewPatch) {
    && (p.durationMinutes.Some? && p.durationMinutes.value.Some? ==> IsInt32(p.durationMinutes.value.value))
    && (p.rating.Some? && p.rating.value.Some? ==> IsInt32(p.rating.value.value))
  }

  /** The insert's numbers fit their `integer` columns: otherwise the `INSERT` throws. */
  predicate InsertApplicationFits(a: InsertApplication) {
    && (a.salaryMin.Some? ==> IsInt32(a.salaryMin.value))
    && (a.salaryMax.Some? ==> IsInt32(a.salaryMax.value))
  }

  /** The insert's numbers fit their `integer` columns. */
  predicate InsertInterviewFits(i: InsertInterview) {
    && (i.durationMinutes.Some? ==> IsInt32(i.durationMinutes.value))
    && (i.rating.Some? ==> IsInt32(i.rating.value))
  }

  /** A record whose interview date is a string does not fit: the column takes only a `Date`. */
  lemma InterviewDateStringDoesNotFit(u: Body)
    requires "interviewDate" in u && u["interviewDate"].JString?
    ensures !FitsColumns(u, InterviewFieldColumns) && DecodeInterviewPatch(u).None?
  {
    assert InterviewFieldColumns[2] == Column("interviewDate", TimestampColumn, true);
    assert !FieldFits(u, InterviewFieldColumns[2]);
  }

  /** The column checks of an update record, one column at a time. */
  lemma InterviewColumnsSpelledOut(u: Body)
    ensures FitsColumns(u, InterviewFieldColumns) <==>
      FieldFits(u, Column("applicationId", TextColumn, true)) && FieldFits(u, Column("interviewType", InterviewTypeColumn, true)) && FieldFits(u, Column("interviewDate", TimestampColumn, true)) && FieldFits(u, Column("durationMinutes", IntegerColumn, false)) && FieldFits(u, Column("interviewerNames", TextColumn, false)) && FieldFits(u, Column("platform", TextColumn, false)) && FieldFits(u, Column("status", InterviewStatusColumn, true)) && FieldFits(u, Column("prepNotes", TextColumn, false)) && FieldFits(u, Column("interviewNotes", TextColumn, false)) && FieldFits(u, Column("questionsAsked", TextColumn, false)) && FieldFits(u, Column("rating", IntegerColumn, false)) && FieldFits(u, Column("followUpActions", TextColumn, false))
    ensures ClearsRequired(u, InterviewFieldColumns) <==>
      FieldClears(u, Column("applicationId", TextColumn, true)) || FieldClears(u, Column("interviewType", InterviewTypeColumn, true)) || FieldClears(u, Column("interviewDate", TimestampColumn, true)) || FieldClears(u, Column("status", InterviewStatusColumn, true))
  {
    var cols := InterviewFieldColumns;
    assert cols[0] == Column("applicationId", TextColumn, true);
    assert cols[1] == Column("interviewType", InterviewTypeColumn, true);
    assert cols[2] == Column("interviewDate", TimestampColumn, true);
    assert cols[3] == Column("durationMinutes", IntegerColumn, false);
    assert cols[4] == Column("interviewerNames", TextColumn, false);
    assert cols[5] == Column("platform", TextColumn, false);
    assert cols[6] == Column("status", InterviewStatusColumn, true);
    assert cols[7] == Column("prepNotes", TextColumn, false);
    assert cols[8] == Column("interviewNotes", TextColumn, false);
    assert cols[9] == Column("questionsAsked", TextColumn, false);
    assert cols[10] == Column("rating", IntegerColumn, false);
    assert cols[11] == Column("followUpActions", TextColumn, false);
    if forall k :: 0 <= k < 12 ==> FieldFits(u, cols[k]) {
      assert FitsColumns(u, cols);
    }
    if ClearsRequired(u, cols) {
      var i :| 0 <= i < |cols| && FieldClears(u, cols[i]);
      assert i == 0 || i == 1 || i == 2 || i == 6;
    }
  }

  /**
   * The patch an update record stands for: `None` when a value cannot be
   * bound to its column or a NOT NULL column is set to null.
   */
  function DecodeInterviewPatch(u: Body): (r: Option<InterviewPatch>)
    ensures r.Some? <==> FitsColumns(u, InterviewFieldColumns) && !ClearsRequired(u, InterviewFieldColumns)
  {
    InterviewColumnsSpelledOut(u);
    var applicationId := Field(u, "applicationId", AsString);
    var interviewType := Field(u, "interviewType", AsInterviewType);
    var interviewDate := Field(u, "interviewDate", AsTimestamp);
    var durationMinutes := Field(u, "durationMinutes", AsNullableInt32);
    var interviewerNames := Field(u, "interviewerNames", AsNullableString);
    var platform := Field(u, "platform", AsNullableString);
    var status := Field(u, "status", AsInterviewStatus);
    var prepNotes := Field(u, "prepNotes", AsNullableString);
    var interviewNotes := Field(u, "interviewNotes", AsNullableString);
    var questionsAsked := Field(u, "questionsAsked", AsNullableString);
    var rating := Field(u, "rating", AsNullableInt32);
    var followUpActions := Field(u, "followUpActions", AsNullableString);
    if applicationId.Some? && interviewType.Some? && interviewDate.Some? && durationMinutes.Some? && interviewerNames.Some? && platform.Some? && status.Some? && prepNotes.Some? && interviewNotes.Some? && questionsAsked.Some? && rating.Some? && followUpActions.Some?
    then Some(InterviewPatch(applicationId.value, interviewType.value, interviewDate.value, durationMinutes.value, interviewerNames.value, platform.value, status.value, prepNotes.value, interviewNotes.value, questionsAsked.value, rating.value, followUpActions.value))
    else None
  }

  /** A record that decodes is the encoding of its patch, restricted to the insert fields. */
  lemma DecodeInterviewPatchEncodes(u: Body)
    requires DecodeInterviewPatch(u).Some?
    ensures EncodeInterviewPatch(DecodeInterviewPatch(u).value) == Picked(u, InterviewInsertFields)
  {
    var p := DecodeInterviewPatch(u).value;
    forall k | k in InterviewInsertFields
      ensures InterviewEntry(p, k) == if k in u then Some(u[k]) else None
    {
      InterviewEntryDecoded(u, k);
    }
  }

  /** One field of a decoded record, written back. */
  lemma InterviewEntryDecoded(u: Body, k: string)
    requires DecodeInterviewPatch(u).Some? && k in InterviewInsertFields
    ensures InterviewEntry(DecodeInterviewPatch(u).value, k) == if k in u then Some(u[k]) else None
  {
    var p := DecodeInterviewPatch(u).value;
    if k == "applicationId" {
      assert p.applicationId == Field(u, "applicationId", AsString).value;
    } else if k == "interviewType" {
      assert p.interviewType == Field(u, "interviewType", AsInterviewType).value;
    } else if k == "interviewDate" {
      assert p.interviewDate == Field(u, "interviewDate", AsTimestamp).value;
    } else if k == "durationMinutes" {
      assert p.durationMinutes == Field(u, "durationMinutes", AsNullableInt32).value;
    } else if k == "interviewerNames" {
      assert p.interviewerNames == Field(u, "interviewerNames", AsNullableString).value;
    } else if k == "platform" {
      assert p.platform == Field(u, "platform", AsNullableString).value;
    } else if k == "status" {
      assert p.status == Field(u, "status", AsInterviewStatus).value;
    } else if k == "prepNotes" {
      assert p.prepNotes == Field(u, "prepNotes", AsNullableString).value;
    } else if k == "interviewNotes" {
      assert p.interviewNotes == Field(u, "interviewNotes", AsNullableString).value;
    } else if k == "questionsAsked" {
      assert p.questionsAsked == Field(u, "questionsAsked", AsNullableString).value;
    } else if k == "rating" {
      assert p.rating == Field(u, "rating", AsNullableInt32).value;
    } else if k == "followUpActions" {
      assert p.followUpActions == Field(u, "followUpActions", AsNullableString).value;
    }
  }

  lemma InterviewEntryEncoded(p: InterviewPatch, k: string)
    requires k in InterviewInsertFields
    ensures k in EncodeInterviewPatch(p) <==> InterviewEntry(p, k).Some?
    ensures k in EncodeInterviewPatch(p) ==> EncodeInterviewPatch(p)[k] == InterviewEntry(p, k).value
  {
  }

  /** A record decodes to the patch whose fields it reads as. */
  lemma InterviewDecodesFromFields(u: Body, p: InterviewPatch)
    requires Field(u, "applicationId", AsString) == Some(p.applicationId)
    requires Field(u, "interviewType", AsInterviewType) == Some(p.interviewType)
    requires Field(u, "interviewDate", AsTimestamp) == Some(p.interviewDate)
    requires Field(u, "durationMinutes", AsNullableInt32) == Some(p.durationMinutes)
    requires Field(u, "interviewerNames", AsNullableString) == Some(p.interviewerNames)
    requires Field(u, "platform", AsNullableString) == Some(p.platform)
    requires Field(u, "status", AsInterviewStatus) == Some(p.status)
    requires Field(u, "prepNotes", AsNullableString) == Some(p.prepNotes)
    requires Field(u, "interviewNotes", AsNullableString) == Some(p.interviewNotes)
    requires Field(u, "questionsAsked", AsNullableString) == Some(p.questionsAsked)
    requires Field(u, "rating", AsNullableInt32) == Some(p.rating)
    requires Field(u, "followUpActions", AsNullableString) == Some(p.followUpActions)
    ensures DecodeInterviewPatch(u) == Some(p)
  {
  }

  lemma InterviewFieldsEncoded1(p: InterviewPatch)
    requires InterviewPatchFits(p)
    ensures Field(EncodeInterviewPatch(p), "applicationId", AsString) == Some(p.applicationId)
    ensures Field(EncodeInterviewPatch(p), "interviewType", AsInterviewType) == Some(p.interviewType)
    ensures Field(EncodeInterviewPatch(p), "interviewDate", AsTimestamp) == Some(p.interviewDate)
    ensures Field(EncodeInterviewPatch(p), "durationMinutes", AsNullableInt32) == Some(p.durationMinutes)
  {
    InterviewEntryEncoded(p, "applicationId");
    InterviewEntryEncoded(p, "interviewType");
    InterviewTypesAreExact();
    InterviewEntryEncoded(p, "interviewDate");
    InterviewEntryEncoded(p, "durationMinutes");
  }

  lemma InterviewFieldsEncoded2(p: InterviewPatch)
    requires InterviewPatchFits(p)
    ensures Field(EncodeInterviewPatch(p), "interviewerNames", AsNullableString) == Some(p.interviewerNames)
    ensures Field(EncodeInterviewPatch(p), "platform", AsNullableString) == Some(p.platform)
    ensures Field(EncodeInterviewPatch(p), "status", AsInterviewStatus) == Some(p.status)
    ensures Field(EncodeInterviewPatch(p), "prepNotes", AsNullableString) == Some(p.prepNotes)
  {
    InterviewEntryEncoded(p, "interviewerNames");
    InterviewEntryEncoded(p, "platform");
    InterviewEntryEncoded(p, "status");
    InterviewStatusesAreExact();
    InterviewEntryEncoded(p, "prepNotes");
  }

  lemma InterviewFieldsEncoded3(p: InterviewPatch)
    requires InterviewPatchFits(p)
    ensures Field(EncodeInterviewPatch(p), "interviewNotes", AsNullableString) == Some(p.interviewNotes)
    ensures Field(EncodeInterviewPatch(p), "questionsAsked", AsNullableString) == Some(p.questionsAsked)
    ensures Field(EncodeInterviewPatch(p), "rating", AsNullableInt32) == Some(p.rating)
    ensures Field(EncodeInterviewPatch(p), "followUpActions", AsNullableString) == Some(p.followUpActions)
  {
    InterviewEntryEncoded(p, "interviewNotes");
    InterviewEntryEncoded(p, "questionsAsked");
    InterviewEntryEncoded(p, "rating");
    InterviewEntryEncoded(p, "followUpActions");
  }

  /** Encoding a patch whose numbers fit and decoding the record gives the patch back. */
  lemma DecodeEncodeInterviewPatch(p: InterviewPatch)
    requires InterviewPatchFits(p)
    ensures DecodeInterviewPatch(EncodeInterviewPatch(p)) == Some(p)
  {
    InterviewFieldsEncoded1(p);
    InterviewFieldsEncoded2(p);
    InterviewFieldsEncoded3(p);
    InterviewDecodesFromFields(EncodeInterviewPatch(p), p);
  }

  /** The empty record is the empty patch. */
  lemma EmptyInterviewRecord()
    ensures DecodeInterviewPatch(map[]) == Some(EmptyInterviewPatch)
    ensures EncodeInterviewPatch(EmptyInterviewPatch) == map[]
  {
  }

  // ---------------------------------------------------------------- resources

  /** The value a patch sets `name` to, if it sets it. */
  function ResourceEntry(p: ResourcePatch, name: string): Option<Json> {
    if name == "title" then (if p.title.Some? then Some(JString(p.title.value)) else None)
    else if name == "url" then (if p.url.Some? then Some(NullableText(p.url.value)) else None)
    else if name == "category" then (if p.category.Some? then Some(JString(ResourceCategoryName(p.category.value))) else None)
    else if name == "notes" then (if p.notes.Some? then Some(NullableText(p.notes.value)) else None)
    else if name == "isReviewed" then (if p.isReviewed.Some? then Some(NullableFlag(p.isReviewed.value)) else None)
    else if name == "linkedApplicationId" then (if p.linkedApplicationId.Some? then Some(NullableText(p.linkedApplicationId.value)) else None)
    else None
  }

  /** The update record a patch stands for: one entry per field it sets. */
  function EncodeResourcePatch(p: ResourcePatch): Body {
    map k | k in ResourceInsertFields && ResourceEntry(p, k).Some? :: ResourceEntry(p, k).value
  }

  /** The column checks of an update record, one column at a time. */
  lemma ResourceColumnsSpelledOut(u: Body)
    ensures FitsColumns(u, ResourceFieldColumns) <==>
      FieldFits(u, Column("title", TextColumn, true)) && FieldFits(u, Column("url", TextColumn, false)) && FieldFits(u, Column("category", ResourceCategoryColumn, true)) && FieldFits(u, Column("notes", TextColumn, false)) && FieldFits(u, Column("isReviewed", BooleanColumn, false)) && FieldFits(u, Column("linkedApplicationId", TextColumn, false))
    ensures ClearsRequired(u, ResourceFieldColumns) <==>
      FieldClears(u, Column("title", TextColumn, true)) || FieldClears(u, Column("category", ResourceCategoryColumn, true))
  {
    var cols := ResourceFieldColumns;
    assert cols[0] == Column("title", TextColumn, true);
    assert cols[1] == Column("url", TextColumn, false);
    assert cols[2] == Column("category", ResourceCategoryColumn, true);
    assert cols[3] == Column("notes", TextColumn, false);
    assert cols[4] == Column("isReviewed", BooleanColumn, false);
    assert cols[5] == Column("linkedApplicationId", TextColumn, false);
    if forall k :: 0 <= k < 6 ==> FieldFits(u, cols[k]) {
      assert FitsColumns(u, cols);
    }
    if ClearsRequired(u, cols) {
      var i :| 0 <= i < |cols| && FieldClears(u, cols[i]);
      assert i == 0 || i == 2;
    }
  }

  /**
   * The patch an update record stands for: `None` when a value cannot be
   * bound to its column or a NOT NULL column is set to null.
   */
  function DecodeResourcePatch(u: Body): (r: Option<ResourcePatch>)
    ensures r.Some? <==> FitsColumns(u, ResourceFieldColumns) && !ClearsRequired(u, ResourceFieldColumns)
  {
    ResourceColumnsSpelledOut(u);
    var title := Field(u, "title", AsString);
    var url := Field(u, "url", AsNullableString);
    var category := Field(u, "category", AsResourceCategory);
    var notes := Field(u, "notes", AsNullableString);
    var isReviewed := Field(u, "isReviewed", AsNullableBool);
    var linkedApplicationId := Field(u, "linkedApplicationId", AsNullableString);
    if title.Some? && url.Some? && category.Some? && notes.Some? && isReviewed.Some? && linkedApplicationId.Some?
    then Some(ResourcePatch(title.value, url.value, category.value, notes.value, isReviewed.value, linkedApplicationId.value))
    else None
  }

  /** A record that decodes is the encoding of its patch, restricted to the insert fields. */
  lemma DecodeResourcePatchEncodes(u: Body)
    requires DecodeResourcePatch(u).Some?
    ensures EncodeResourcePatch(DecodeResourcePatch(u).value) == Picked(u, ResourceInsertFields)
  {
    var p := DecodeResourcePatch(u).value;
    forall k | k in ResourceInsertFields
      ensures ResourceEntry(p, k) == if k in u then Some(u[k]) else None
    {
      ResourceEntryDecoded(u, k);
    }
  }

  /** One field of a decoded record, written back. */
  lemma ResourceEntryDecoded(u: Body, k: string)
    requires DecodeResourcePatch(u).Some? && k in ResourceInsertFields
    ensures ResourceEntry(DecodeResourcePatch(u).value, k) == if k in u then Some(u[k]) else None
  {
    var p := DecodeResourcePatch(u).value;
    if k == "title" {
      assert p.title == Field(u, "title", AsString).value;
    } else if k == "url" {
      assert p.url == Field(u, "url", AsNullableString).value;
    } else if k == "category" {
      assert p.category == Field(u, "category", AsResourceCategory).value;
    } else if k == "notes" {
      assert p.notes == Field(u, "notes", AsNullableString).value;
    } else if k == "isReviewed" {
      assert p.isReviewed == Field(u, "isReviewed", AsNullableBool).value;
    } else if k == "linkedApplicationId" {
      assert p.linkedApplicationId == Field(u, "linkedApplicationId", AsNullableString).value;
    }
  }

  lemma ResourceEntryEncoded(p: ResourcePatch, k: string)
    requires k in ResourceInsertFields
    ensures k in EncodeResourcePatch(p) <==> ResourceEntry(p, k).Some?
    ensures k in EncodeResourcePatch(p) ==> EncodeResourcePatch(p)[k] == ResourceEntry(p, k).value
  {
  }

  /** A record decodes to the patch whose fields it reads as. */
  lemma ResourceDecodesFromFields(u: Body, p: ResourcePatch)
    requires Field(u, "title", AsString) == Some(p.title)
    requires Field(u, "url", AsNullableString) == Some(p.url)
    requires Field(u, "category", AsResourceCategory) == Some(p.category)
    requires Field(u, "notes", AsNullableString) == Some(p.notes)
    requires Field(u, "isReviewed", AsNullableBool) == Some(p.isReviewed)
    requires Field(u, "linkedApplicationId", AsNullableString) == Some(p.linkedApplicationId)
    ensures DecodeResourcePatch(u) == Some(p)
  {
  }

  lemma ResourceFieldsEncoded1(p: ResourcePatch)
    ensures Field(EncodeResourcePatch(p), "title", AsString) == Some(p.title)
    ensures Field(EncodeResourcePatch(p), "url", AsNullableString) == Some(p.url)
    ensures Field(EncodeResourcePatch(p), "category", AsResourceCategory) == Some(p.category)
    ensures Field(EncodeResourcePatch(p), "notes", AsNullableString) == Some(p.notes)
  {
    ResourceEntryEncoded(p, "title");
    ResourceEntryEncoded(p, "url");
    ResourceEntryEncoded(p, "category");
    ResourceCategoriesAreExact();
    ResourceEntryEncoded(p, "notes");
  }

  lemma ResourceFieldsEncoded2(p: ResourcePatch)
    ensures Field(EncodeResourcePatch(p), "isReviewed", AsNullableBool) == Some(p.isReviewed)
    ensures Field(EncodeResourcePatch(p), "linkedApplicationId", AsNullableString) == Some(p.linkedApplicationId)
  {
    ResourceEntryEncoded(p, "isReviewed");
    ResourceEntryEncoded(p, "linkedApplicationId");
  }

  /** Encoding a patch and decoding the record gives the patch back. */
  lemma DecodeEncodeResourcePatch(p: ResourcePatch)
    ensures DecodeResourcePatch(EncodeResourcePatch(p)) == Some(p)
  {
    ResourceFieldsEncoded1(p);
    ResourceFieldsEncoded2(p);
    ResourceDecodesFromFields(EncodeResourcePatch(p), p);
  }

  /** The empty record is the empty patch. */
  lemma EmptyResourceRecord()
    ensures DecodeResourcePatch(map[]) == Some(EmptyResourcePatch)
    ensures EncodeResourcePatch(EmptyResourcePatch) == map[]
  {
  }

  // ---------------------------------------------------------------- questions

  /** The value a patch sets `name` to, if it sets it. */
  function QuestionEntry(p: QuestionPatch, name: string): Option<Json> {
    if name == "questionText" then (if p.questionText.Some? then Some(JString(p.questionText.value)) else None)
    else if name == "answerText" then (if p.answerText.Some? then Some(NullableText(p.answerText.value)) else None)
    else if name == "questionType" then (if p.questionType.Some? then Some(JString(QuestionTypeName(p.questionType.value))) else None)
    else if name == "isFavorite" then (if p.isFavorite.Some? then Some(NullableFlag(p.isFavorite.value)) else None)
    else if name == "tags" then (if p.tags.Some? then Some(NullableTextArray(p.tags.value)) else None)
    else None
  }

  /** The update record a patch stands for: one entry per field it sets. */
  function EncodeQuestionPatch(p: QuestionPatch): Body {
    map k | k in QuestionInsertFields && QuestionEntry(p, k).Some? :: QuestionEntry(p, k).value
  }

  /** The column checks of an update record, one column at a time. */
  lemma QuestionColumnsSpelledOut(u: Body)
    ensures FitsColumns(u, QuestionFieldColumns) <==>
      FieldFits(u, Column("questionText", TextColumn, true)) && FieldFits(u, Column("answerText", TextColumn, false)) && FieldFits(u, Column("questionType", QuestionTypeColumn, true)) && FieldFits(u, Column("isFavorite", BooleanColumn, false)) && FieldFits(u, Column("tags", TextArrayColumn, false))
    ensures ClearsRequired(u, QuestionFieldColumns) <==>
      FieldClears(u, Column("questionText", TextColumn, true)) || FieldClears(u, Column("questionType", QuestionTypeColumn, true))
  {
    var cols := QuestionFieldColumns;
    assert cols[0] == Column("questionText", TextColumn, true);
    assert cols[1] == Column("answerText", TextColumn, false);
    assert cols[2] == Column("questionType", QuestionTypeColumn, true);
    assert cols[3] == Column("isFavorite", BooleanColumn, false);
    assert cols[4] == Column("tags", TextArrayColumn, false);
    if forall k :: 0 <= k < 5 ==> FieldFits(u, cols[k]) {
      assert FitsColumns(u, cols);
    }
    if ClearsRequired(u, cols) {
      var i :| 0 <= i < |cols| && FieldClears(u, cols[i]);
      assert i == 0 || i == 2;
    }
  }

  /**
   * The patch an update record stands for: `None` when a value cannot be
   * bound to its column or a NOT NULL column is set to null.
   */
  function DecodeQuestionPatch(u: Body): (r: Option<QuestionPatch>)
    ensures r.Some? <==> FitsColumns(u, QuestionFieldColumns) && !ClearsRequired(u, QuestionFieldColumns)
  {
    QuestionColumnsSpelledOut(u);
    var questionText := Field(u, "questionText", AsString);
    var answerText := Field(u, "answerText", AsNullableString);
    var questionType := Field(u, "questionType", AsQuestionType);
    var isFavorite := Field(u, "isFavorite", AsNullableBool);
    var tags := Field(u, "tags", AsNullableStringArray);
    if questionText.Some? && answerText.Some? && questionType.Some? && isFavorite.Some? && tags.Some?
    then Some(QuestionPatch(questionText.value, answerText.value, questionType.value, isFavorite.value, tags.value))
    else None
  }

  /** A record that decodes is the encoding of its patch, restricted to the insert fields. */
  lemma DecodeQuestionPatchEncodes(u: Body)
    requires DecodeQuestionPatch(u).Some?
    ensures EncodeQuestionPatch(DecodeQuestionPatch(u).value) == Picked(u, QuestionInsertFields)
  {
    var p := DecodeQuestionPatch(u).value;
    forall k | k in QuestionInsertFields
      ensures QuestionEntry(p, k) == if k in u then Some(u[k]) else None
    {
      QuestionEntryDecoded(u, k);
    }
  }

  /** One field of a decoded record, written back. */
  lemma QuestionEntryDecoded(u: Body, k: string)
    requires DecodeQuestionPatch(u).Some? && k in QuestionInsertFields
    ensures QuestionEntry(DecodeQuestionPatch(u).value, k) == if k in u then Some(u[k]) else None
  {
    var p := DecodeQuestionPatch(u).value;
    if k == "questionText" {
      assert p.questionText == Field(u, "questionText", AsString).value;
    } else if k == "answerText" {
      assert p.answerText == Field(u, "answerText", AsNullableString).value;
    } else if k == "questionType" {
      assert p.questionType == Field(u, "questionType", AsQuestionType).value;
    } else if k == "isFavorite" {
      assert p.isFavorite == Field(u, "isFavorite", AsNullableBool).value;
    } else if k == "tags" {
      assert p.tags == Field(u, "tags", AsNullableStringArray).value;
    }
  }

  lemma QuestionEntryEncoded(p: QuestionPatch, k: string)
    requires k in QuestionInsertFields
    ensures k in EncodeQuestionPatch(p) <==> QuestionEntry(p, k).Some?
    ensures k in EncodeQuestionPatch(p) ==> EncodeQuestionPatch(p)[k] == QuestionEntry(p, k).value
  {
  }

  /** A record decodes to the patch whose fields it reads as. */
  lemma QuestionDecodesFromFields(u: Body, p: QuestionPatch)
    requires Field(u, "questionText", AsString) == Some(p.questionText)
    requires Field(u, "answerText", AsNullableString) == Some(p.answerText)
    requires Field(u, "questionType", AsQuestionType) == Some(p.questionType)
    requires Field(u, "isFavorite", AsNullableBool) == Some(p.isFavorite)
    requires Field(u, "tags", AsNullableStringArray) == Some(p.tags)
    ensures DecodeQuestionPatch(u) == Some(p)
  {
  }

  lemma QuestionFieldsEncoded1(p: QuestionPatch)
    ensures Field(EncodeQuestionPatch(p), "questionText", AsString) == Some(p.questionText)
    ensures Field(EncodeQuestionPatch(p), "answerText", AsNullableString) == Some(p.answerText)
    ensures Field(EncodeQuestionPatch(p), "questionType", AsQuestionType) == Some(p.questionType)
    ensures Field(EncodeQuestionPatch(p), "isFavorite", AsNullableBool) == Some(p.isFavorite)
  {
    QuestionEntryEncoded(p, "questionText");
    QuestionEntryEncoded(p, "answerText");
    QuestionEntryEncoded(p, "questionType");
    QuestionTypesAreExact();
    QuestionEntryEncoded(p, "isFavorite");
  }

  lemma QuestionFieldsEncoded2(p: QuestionPatch)
    ensures Field(EncodeQuestionPatch(p), "tags", AsNullableStringArray) == Some(p.tags)
  {
    QuestionEntryEncoded(p, "tags");
    if p.tags.Some? && p.tags.value.Some? {
      ReadTextArray(p.tags.value.value);
    }
  }

  /** Encoding a patch and decoding the record gives the patch back. */
  lemma DecodeEncodeQuestionPatch(p: QuestionPatch)
    ensures DecodeQuestionPatch(EncodeQuestionPatch(p)) == Some(p)
  {
    QuestionFieldsEncoded1(p);
    QuestionFieldsEncoded2(p);
    QuestionDecodesFromFields(EncodeQuestionPatch(p), p);
  }

  /** The empty record is the empty patch. */
  lemma EmptyQuestionRecord()
    ensures DecodeQuestionPatch(map[]) == Some(EmptyQuestionPatch)
    ensures EncodeQuestionPatch(EmptyQuestionPatch) == map[]
  {
  }
}
