/**
 * The edit dialogs and the server together: a record a dialog builds from
 * a stored row goes through the route's allow-list and the column check
 * and is applied to the row.
 *
 * As written, the dialogs' dates arrive as ISO strings, which no
 * timestamp column takes, so saving the details or the edit-interview
 * dialog always fails. With the date step the routes lack, what comes
 * back is the row, up to what the dialogs normalise.
 */
module EndToEnd {
  import opened Wrappers
  import opened Schema
  import opened JsonValues
  import opened Columns
  import opened Storage
  import opened Routes
  import opened ApplicationForms
  import opened InterviewForms
  import opened QuestionForms
  import opened Text
  import Calendar

  // ---------------------------------------------------------------- field by field

  /** What an optional string of the form updates: a non-empty value, or nothing. */
  function TextUpdate(s: string): Option<Option<string>> {
    if s != "" then Some(Some(s)) else None
  }

  /** What a number field of a form updates: a non-zero value, or nothing. */
  function NumberUpdate(n: Option<int>): Option<Option<int>> {
    if n.Some? && n.value != 0 then Some(n) else None
  }

  /** A number that fits a Postgres `integer`, as every stored one does. */
  predicate FitsInt32(n: Option<int>) {
    n.None? || IsInt32(n.value)
  }

  lemma TextFieldDecodes(body: Body, name: string, s: string)
    requires Carries(body, name, TextField(s))
    ensures Field(body, name, AsNullableString) == Some(TextUpdate(s))
  {
  }

  lemma NumberFieldDecodes(body: Body, name: string, n: Option<int>)
    requires FitsInt32(n)
    requires Carries(body, name, NumberField(n))
    ensures Field(body, name, AsNullableInt32) == Some(NumberUpdate(n))
  {
  }

  lemma StringDecodes(body: Body, name: string, s: string)
    requires name in body && body[name] == JString(s)
    ensures Field(body, name, AsString) == Some(Some(s))
  {
  }

  lemma NullableStringDecodes(body: Body, name: string, s: string)
    requires name in body && body[name] == JString(s)
    ensures Field(body, name, AsNullableString) == Some(Some(Some(s)))
  {
  }

  /** A field that is no date field goes through the date step as it is. */
  lemma RevivedCarries(body: Body, dateFields: seq<string>, name: string, v: Option<Json>)
    requires name !in dateFields && Carries(body, name, v)
    ensures Carries(ReviveDates(body, dateFields), name, v)
  {
  }

  /** The UTC day of a time a `Date` can hold is one too. */
  lemma StartOfValidDayIsValid(t: Time)
    requires Calendar.IsValidTime(t)
    ensures Calendar.IsValidTime(StartOfDay(t))
  {
    if t < -Calendar.MaxTimeValue + DayMillis {
      StartOfDayWithin(-Calendar.MaxTimeValue, t);
    }
  }

  // ---------------------------------------------------------------- applications

  /** The patch the details dialog's record decodes to: only what the form sends. */
  function SentApplicationPatch(form: ApplicationForm): ApplicationPatch {
    ApplicationPatch(Some(form.companyName), Some(form.positionTitle), TextUpdate(form.jobUrl),
                     TextUpdate(form.logoUrl), Some(form.status), NumberUpdate(form.salaryMin),
                     NumberUpdate(form.salaryMax), TextUpdate(form.location),
                     Some(Some(form.isRemote == Some(true))), Some(form.applicationDay), TextUpdate(form.notes))
  }

  /** Every field the details dialog sends is on the route's allow-list. */
  lemma ApplicationUpdatePassesAllowList(form: ApplicationForm)
    ensures Picked(ApplicationUpdateBody(form), ApplicationAllowedFields) == ApplicationUpdateBody(form)
  {
    PickedKeepsAllowed(ApplicationUpdateBody(form), ApplicationAllowedFields);
  }

  lemma StatusDecodes(body: Body, status: ApplicationStatus)
    requires "status" in body && body["status"] == JString(ApplicationStatusName(status))
    ensures Field(body, "status", AsApplicationStatus) == Some(Some(status))
  {
    match status
    case Applied =>
    case PhoneScreen =>
    case Technical =>
    case Onsite =>
    case Final =>
    case Offer =>
    case Rejected =>
    case Withdrawn =>
  }

  /**
   * As written, the details dialog cannot save: its date arrives as the
   * ISO string `JSON.stringify` makes of a `Date`, a string is no value
   * for the timestamp column, and so the record does not fit the columns.
   */
  lemma DetailsDialogDateDoesNotFit(form: ApplicationForm)
    requires Calendar.IsValidTime(form.applicationDay)
    ensures var u := Picked(ApplicationUpdateBody(form), ApplicationAllowedFields);
      !FitsColumns(u, ApplicationFieldColumns) && DecodeApplicationPatch(u).None?
  {
    var body := ApplicationUpdateBody(form);
    ApplicationUpdatePassesAllowList(form);
    UpdateBodyCarriesFixedFields(form);
    ApplicationDateStringDoesNotFit(body);
  }

  /**
   * Saving the details dialog through the route as written: the update
   * throws, whatever the application, and nothing changes.
   */
  method SaveDetailsDialog(store: Store, id: Id, form: ApplicationForm, now: Time) returns (reply: Reply)
    requires store.Valid() && Calendar.IsValidTime(form.applicationDay)
    modifies store
    ensures reply == Error(500, "Failed to update application")
    ensures store.applications == old(store.applications)
  {
    DetailsDialogDateDoesNotFit(form);
    reply := PatchApplicationRoute(store, id, ApplicationUpdateBody(form), now);
  }

  lemma RevivedDetailsNames(body: Body, form: ApplicationForm)
    requires Carries(body, "companyName", Some(JString(form.companyName)))
    requires Carries(body, "positionTitle", Some(JString(form.positionTitle)))
    ensures var u := ReviveDates(body, ApplicationDateFields);
      && Field(u, "companyName", AsString) == Some(Some(form.companyName))
      && Field(u, "positionTitle", AsString) == Some(Some(form.positionTitle))
  {
    var u := ReviveDates(body, ApplicationDateFields);
    RevivedCarries(body, ApplicationDateFields, "companyName", Some(JString(form.companyName)));
    RevivedCarries(body, ApplicationDateFields, "positionTitle", Some(JString(form.positionTitle)));
    StringDecodes(u, "companyName", form.companyName);
    StringDecodes(u, "positionTitle", form.positionTitle);
  }

  lemma RevivedDetailsStatusAndFlag(body: Body, form: ApplicationForm)
    requires Carries(body, "status", Some(JString(ApplicationStatusName(form.status))))
    requires Carries(body, "isRemote", Some(JBool(form.isRemote == Some(true))))
    ensures var u := ReviveDates(body, ApplicationDateFields);
      && Field(u, "status", AsApplicationStatus) == Some(Some(form.status))
      && Field(u, "isRemote", AsNullableBool) == Some(Some(Some(form.isRemote == Some(true))))
  {
    var u := ReviveDates(body, ApplicationDateFields);
    RevivedCarries(body, ApplicationDateFields, "status", Some(JString(ApplicationStatusName(form.status))));
    RevivedCarries(body, ApplicationDateFields, "isRemote", Some(JBool(form.isRemote == Some(true))));
    StatusDecodes(u, form.status);
  }

  lemma RevivedDetailsTexts(body: Body, form: ApplicationForm)
    requires Carries(body, "jobUrl", TextField(form.jobUrl))
    requires Carries(body, "logoUrl", TextField(form.logoUrl))
    requires Carries(body, "location", TextField(form.location))
    requires Carries(body, "notes", TextField(form.notes))
    ensures var u := ReviveDates(body, ApplicationDateFields);
      && Field(u, "jobUrl", AsNullableString) == Some(TextUpdate(form.jobUrl))
      && Field(u, "logoUrl", AsNullableString) == Some(TextUpdate(form.logoUrl))
      && Field(u, "location", AsNullableString) == Some(TextUpdate(form.location))
      && Field(u, "notes", AsNullableString) == Some(TextUpdate(form.notes))
  {
    var u := ReviveDates(body, ApplicationDateFields);
    RevivedCarries(body, ApplicationDateFields, "jobUrl", TextField(form.jobUrl));
    RevivedCarries(body, ApplicationDateFields, "logoUrl", TextField(form.logoUrl));
    RevivedCarries(body, ApplicationDateFields, "location", TextField(form.location));
    RevivedCarries(body, ApplicationDateFields, "notes", TextField(form.notes));
    TextFieldDecodes(u, "jobUrl", form.jobUrl);
    TextFieldDecodes(u, "logoUrl", form.logoUrl);
    TextFieldDecodes(u, "location", form.location);
    TextFieldDecodes(u, "notes", form.notes);
  }

  lemma RevivedDetailsSalaries(body: Body, form: ApplicationForm)
    requires FitsInt32(form.salaryMin) && FitsInt32(form.salaryMax)
    requires Carries(body, "salaryMin", NumberField(form.salaryMin))
    requires Carries(body, "salaryMax", NumberField(form.salaryMax))
    ensures var u := ReviveDates(body, ApplicationDateFields);
      && Field(u, "salaryMin", AsNullableInt32) == Some(NumberUpdate(form.salaryMin))
      && Field(u, "salaryMax", AsNullableInt32) == Some(NumberUpdate(form.salaryMax))
  {
    var u := ReviveDates(body, ApplicationDateFields);
    RevivedCarries(body, ApplicationDateFields, "salaryMin", NumberField(form.salaryMin));
    RevivedCarries(body, ApplicationDateFields, "salaryMax", NumberField(form.salaryMax));
    NumberFieldDecodes(u, "salaryMin", form.salaryMin);
    NumberFieldDecodes(u, "salaryMax", form.salaryMax);
  }

  /**
   * With the date step, the route decodes every record of the details
   * dialog whose salaries fit their columns and whose date a `Date` can
   * hold, to exactly what the form sends.
   */
  lemma ApplicationUpdateDecodes(form: ApplicationForm)
    requires FitsInt32(form.salaryMin) && FitsInt32(form.salaryMax) && Calendar.IsValidTime(form.applicationDay)
    ensures DecodeApplicationPatch(ReviveDates(Picked(ApplicationUpdateBody(form), ApplicationAllowedFields),
                                               ApplicationDateFields))
         == Some(SentApplicationPatch(form))
  {
    var date := DateJson(form.applicationDay);
    var body := ApplicationForms.UpdateBodyWithDate(form, date);
    var u := ReviveDates(body, ApplicationDateFields);
    ApplicationUpdatePassesAllowList(form);
    BodyWithDateCarriesFixedFields(form, date);
    ReviveSentDate(body, ApplicationDateFields, "applicationDate", form.applicationDay);
    assert Field(u, "applicationDate", AsTimestamp) == Some(Some(form.applicationDay));
    RevivedDetailsNames(body, form);
    RevivedDetailsStatusAndFlag(body, form);
    BodyWithDateCarriesTexts(form, date);
    BodyWithDateCarriesSalaries(form, date);
    RevivedDetailsTexts(body, form);
    RevivedDetailsSalaries(body, form);
    ApplicationDecodesFromFields(u, SentApplicationPatch(form));
  }

  /**
   * Saving the details dialog through the route with the date step: a 404
   * exactly when the caller has no such application, and otherwise the
   * form's record applied to the stored row.
   */
  method SaveDetailsDialogWithDates(store: Store, id: Id, form: ApplicationForm, now: Time) returns (reply: Reply)
    requires store.Valid()
    requires FitsInt32(form.salaryMin) && FitsInt32(form.salaryMax) && Calendar.IsValidTime(form.applicationDay)
    modifies store
    ensures reply.status in {200, 404}
    ensures reply.status == 404 <==> !old(store.OwnsApplication(MockUserId, id))
    ensures reply.status == 200 ==>
      && reply.body == ApplicationBody(ApplyApplicationPatch(old(store.applications[id]), SentApplicationPatch(form), now))
      && store.applications == old(store.applications)[id := reply.body.application]
  {
    ApplicationUpdateDecodes(form);
    reply := PatchApplicationRouteWithDates(store, id, ApplicationUpdateBody(form), now);
  }

  /** A stored string shown in the dialog and sent back leaves the column as it was. */
  lemma ShownTextIsKept(stored: Option<string>)
    ensures TextUpdate(stored.GetOr("")).GetOr(stored) == stored
  {
  }

  lemma ShownNumberIsKept(stored: Option<int>)
    ensures NumberUpdate(NonZero(stored)).GetOr(stored) == stored
  {
  }

  /** Applying a patch field by field. */
  lemma ApplyFullApplicationPatch(app: Application, p: ApplicationPatch, now: Time)
    ensures ApplyApplicationPatch(app, p, now)
         == app.(companyName := p.companyName.GetOr(app.companyName),
                 positionTitle := p.positionTitle.GetOr(app.positionTitle),
                 jobUrl := p.jobUrl.GetOr(app.jobUrl), logoUrl := p.logoUrl.GetOr(app.logoUrl),
                 status := p.status.GetOr(app.status), salaryMin := p.salaryMin.GetOr(app.salaryMin),
                 salaryMax := p.salaryMax.GetOr(app.salaryMax), location := p.location.GetOr(app.location),
                 isRemote := p.isRemote.GetOr(app.isRemote),
                 applicationDate := p.applicationDate.GetOr(app.applicationDate),
                 notes := p.notes.GetOr(app.notes), updatedAt := now)
  {
  }

  /**
   * With the date step, saving the details dialog without touching it
   * sends a record the route accepts whole, and the application comes
   * back as it was, except that its date is cut to the UTC day, a missing
   * remote flag becomes false, and `updatedAt` moves to now.
   */
  lemma ApplicationEditRoundTrip(app: Application, now: Time)
    requires FitsInt32(app.salaryMin) && FitsInt32(app.salaryMax) && Calendar.IsValidTime(app.applicationDate)
    ensures var body := ApplicationUpdateBody(PopulateApplicationForm(app));
      var p := DecodeApplicationPatch(ReviveDates(Picked(body, ApplicationAllowedFields), ApplicationDateFields));
      && Picked(body, ApplicationAllowedFields) == body
      && p.Some?
      && ApplyApplicationPatch(app, p.value, now)
         == app.(applicationDate := StartOfDay(app.applicationDate), isRemote := Some(app.isRemote == Some(true)),
                 updatedAt := now)
  {
    var form := PopulateApplicationForm(app);
    StartOfValidDayIsValid(app.applicationDate);
    ApplicationUpdatePassesAllowList(form);
    ApplicationUpdateDecodes(form);
    ShownTextIsKept(app.jobUrl);
    ShownTextIsKept(app.logoUrl);
    ShownTextIsKept(app.location);
    ShownTextIsKept(app.notes);
    ShownNumberIsKept(app.salaryMin);
    ShownNumberIsKept(app.salaryMax);
    ApplyFullApplicationPatch(app, SentApplicationPatch(form), now);
  }

  /**
   * Even with the date step, emptying the job URL in the details dialog
   * and saving keeps the old URL: the empty field is left out of the
   * record, and a field left out is not updated. The same holds for the
   * logo URL, location, notes and both salaries.
   */
  lemma EditCannotClearJobUrl(app: Application, now: Time)
    requires app.jobUrl.Some? && FitsInt32(app.salaryMin) && FitsInt32(app.salaryMax)
    requires Calendar.IsValidTime(app.applicationDate)
    ensures var body := ApplicationUpdateBody(PopulateApplicationForm(app).(jobUrl := ""));
      var p := DecodeApplicationPatch(ReviveDates(Picked(body, ApplicationAllowedFields), ApplicationDateFields));
      p.Some? && ApplyApplicationPatch(app, p.value, now).jobUrl == app.jobUrl
  {
    StartOfValidDayIsValid(app.applicationDate);
    ApplicationUpdateDecodes(PopulateApplicationForm(app).(jobUrl := ""));
  }

  // ---------------------------------------------------------------- applications, clearing emptied fields

  /** The four optional strings and the salaries as the corrected record sends them: an emptied field as null. */
  function ClearableText(s: string): (j: Json)
    ensures j == JNull <==> s == ""
  {
    if s == "" then JNull else JString(s)
  }

  function ClearableNumber(n: Option<int>): (j: Json)
    ensures j == JNull <==> n.None? || n.value == 0
  {
    if n.Some? && n.value != 0 then JNumber(n.value) else JNull
  }

  /** The details dialog's record with every field present, an emptied one as null. */
  function ClearingUpdateBody(form: ApplicationForm): (body: Body)
    ensures body.Keys == ApplicationUpdateKeys
  {
    ClearingBodyWithDate(form, DateJson(form.applicationDay))
  }

  /** The corrected record around an already written date. */
  function ClearingBodyWithDate(form: ApplicationForm, date: Json): (body: Body)
    ensures body.Keys == ApplicationUpdateKeys
  {
    map["companyName" := JString(form.companyName), "positionTitle" := JString(form.positionTitle),
        "jobUrl" := ClearableText(form.jobUrl), "logoUrl" := ClearableText(form.logoUrl),
        "status" := JString(ApplicationStatusName(form.status)),
        "salaryMin" := ClearableNumber(form.salaryMin), "salaryMax" := ClearableNumber(form.salaryMax),
        "location" := ClearableText(form.location), "isRemote" := JBool(Ticked(form.isRemote)),
        "applicationDate" := date, "notes" := ClearableText(form.notes)]
  }

  /** `handleFormSubmit` of the details dialog, corrected: nothing without an application. */
  function ApplicationUpdateClearing(app: Option<Application>, form: ApplicationForm): (r: Option<Body>)
    ensures r.Some? <==> app.Some?
    ensures r.Some? ==> r.value == ClearingUpdateBody(form)
  {
    if app.None? then None else Some(ClearingUpdateBody(form))
  }

  /** The patch the corrected record decodes to: every field, an emptied one as NULL. */
  function ClearingApplicationPatch(form: ApplicationForm): ApplicationPatch {
    ApplicationPatch(Some(form.companyName), Some(form.positionTitle), Some(Truthy(form.jobUrl)),
                     Some(Truthy(form.logoUrl)), Some(form.status), Some(NonZero(form.salaryMin)),
                     Some(NonZero(form.salaryMax)), Some(Truthy(form.location)),
                     Some(Some(Ticked(form.isRemote))), Some(form.applicationDay), Some(Truthy(form.notes)))
  }

  lemma ClearingUpdatePassesAllowList(form: ApplicationForm)
    ensures Picked(ClearingUpdateBody(form), ApplicationAllowedFields) == ClearingUpdateBody(form)
  {
    PickedKeepsAllowed(ClearingUpdateBody(form), ApplicationAllowedFields);
  }

  lemma ClearableTextDecodes(body: Body, name: string, s: string)
    requires name in body && body[name] == ClearableText(s)
    ensures Field(body, name, AsNullableString) == Some(Some(Truthy(s)))
  {
  }

  lemma ClearableNumberDecodes(body: Body, name: string, n: Option<int>)
    requires FitsInt32(n)
    requires name in body && body[name] == ClearableNumber(n)
    ensures Field(body, name, AsNullableInt32) == Some(Some(NonZero(n)))
  {
  }

  /** The corrected record's fields other than the date, field by field. */
  lemma ClearingBodyCarries(form: ApplicationForm, date: Json)
    ensures var body := ClearingBodyWithDate(form, date);
      && Carries(body, "companyName", Some(JString(form.companyName)))
      && Carries(body, "positionTitle", Some(JString(form.positionTitle)))
      && Carries(body, "status", Some(JString(ApplicationStatusName(form.status))))
      && Carries(body, "isRemote", Some(JBool(Ticked(form.isRemote))))
      && Carries(body, "applicationDate", Some(date))
      && Carries(body, "jobUrl", Some(ClearableText(form.jobUrl)))
      && Carries(body, "logoUrl", Some(ClearableText(form.logoUrl)))
      && Carries(body, "location", Some(ClearableText(form.location)))
      && Carries(body, "notes", Some(ClearableText(form.notes)))
      && Carries(body, "salaryMin", Some(ClearableNumber(form.salaryMin)))
      && Carries(body, "salaryMax", Some(ClearableNumber(form.salaryMax)))
  {
  }

  lemma RevivedClearingNames(body: Body, form: ApplicationForm)
    requires Carries(body, "companyName", Some(JString(form.companyName)))
    requires Carries(body, "positionTitle", Some(JString(form.positionTitle)))
    ensures var u := ReviveDates(body, ApplicationDateFields);
      && Field(u, "companyName", AsString) == Some(Some(form.companyName))
      && Field(u, "positionTitle", AsString) == Some(Some(form.positionTitle))
  {
    var u := ReviveDates(body, ApplicationDateFields);
    RevivedCarries(body, ApplicationDateFields, "companyName", Some(JString(form.companyName)));
    RevivedCarries(body, ApplicationDateFields, "positionTitle", Some(JString(form.positionTitle)));
    StringDecodes(u, "companyName", form.companyName);
    StringDecodes(u, "positionTitle", form.positionTitle);
  }

  lemma RevivedClearingStatusAndFlag(body: Body, form: ApplicationForm)
    requires Carries(body, "status", Some(JString(ApplicationStatusName(form.status))))
    requires Carries(body, "isRemote", Some(JBool(Ticked(form.isRemote))))
    ensures var u := ReviveDates(body, ApplicationDateFields);
      && Field(u, "status", AsApplicationStatus) == Some(Some(form.status))
      && Field(u, "isRemote", AsNullableBool) == Some(Some(Some(Ticked(form.isRemote))))
  {
    var u := ReviveDates(body, ApplicationDateFields);
    RevivedCarries(body, ApplicationDateFields, "status", Some(JString(ApplicationStatusName(form.status))));
    RevivedCarries(body, ApplicationDateFields, "isRemote", Some(JBool(Ticked(form.isRemote))));
    StatusDecodes(u, form.status);
  }

  lemma RevivedClearingTexts(body: Body, form: ApplicationForm)
    requires Carries(body, "jobUrl", Some(ClearableText(form.jobUrl)))
    requires Carries(body, "logoUrl", Some(ClearableText(form.logoUrl)))
    requires Carries(body, "location", Some(ClearableText(form.location)))
    requires Carries(body, "notes", Some(ClearableText(form.notes)))
    ensures var u := ReviveDates(body, ApplicationDateFields);
      && Field(u, "jobUrl", AsNullableString) == Some(Some(Truthy(form.jobUrl)))
      && Field(u, "logoUrl", AsNullableString) == Some(Some(Truthy(form.logoUrl)))
      && Field(u, "location", AsNullableString) == Some(Some(Truthy(form.location)))
      && Field(u, "notes", AsNullableString) == Some(Some(Truthy(form.notes)))
  {
    var u := ReviveDates(body, ApplicationDateFields);
    RevivedCarries(body, ApplicationDateFields, "jobUrl", Some(ClearableText(form.jobUrl)));
    RevivedCarries(body, ApplicationDateFields, "logoUrl", Some(ClearableText(form.logoUrl)));
    RevivedCarries(body, ApplicationDateFields, "location", Some(ClearableText(form.location)));
    RevivedCarries(body, ApplicationDateFields, "notes", Some(ClearableText(form.notes)));
    ClearableTextDecodes(u, "jobUrl", form.jobUrl);
    ClearableTextDecodes(u, "logoUrl", form.logoUrl);
    ClearableTextDecodes(u, "location", form.location);
    ClearableTextDecodes(u, "notes", form.notes);
  }

  lemma RevivedClearingSalaries(body: Body, form: ApplicationForm)
    requires FitsInt32(form.salaryMin) && FitsInt32(form.salaryMax)
    requires Carries(body, "salaryMin", Some(ClearableNumber(form.salaryMin)))
    requires Carries(body, "salaryMax", Some(ClearableNumber(form.salaryMax)))
    ensures var u := ReviveDates(body, ApplicationDateFields);
      && Field(u, "salaryMin", AsNullableInt32) == Some(Some(NonZero(form.salaryMin)))
      && Field(u, "salaryMax", AsNullableInt32) == Some(Some(NonZero(form.salaryMax)))
  {
    var u := ReviveDates(body, ApplicationDateFields);
    RevivedCarries(body, ApplicationDateFields, "salaryMin", Some(ClearableNumber(form.salaryMin)));
    RevivedCarries(body, ApplicationDateFields, "salaryMax", Some(ClearableNumber(form.salaryMax)));
    ClearableNumberDecodes(u, "salaryMin", form.salaryMin);
    ClearableNumberDecodes(u, "salaryMax", form.salaryMax);
  }

  lemma ClearingUpdateDecodes(form: ApplicationForm)
    requires FitsInt32(form.salaryMin) && FitsInt32(form.salaryMax) && Calendar.IsValidTime(form.applicationDay)
    ensures DecodeApplicationPatch(ReviveDates(Picked(ClearingUpdateBody(form), ApplicationAllowedFields),
                                               ApplicationDateFields))
         == Some(ClearingApplicationPatch(form))
  {
    var date := DateJson(form.applicationDay);
    var body := ClearingBodyWithDate(form, date);
    var u := ReviveDates(body, ApplicationDateFields);
    ClearingUpdatePassesAllowList(form);
    ClearingBodyCarries(form, date);
    ReviveSentDate(body, ApplicationDateFields, "applicationDate", form.applicationDay);
    assert Field(u, "applicationDate", AsTimestamp) == Some(Some(form.applicationDay));
    RevivedClearingNames(body, form);
    RevivedClearingStatusAndFlag(body, form);
    RevivedClearingTexts(body, form);
    RevivedClearingSalaries(body, form);
    ApplicationDecodesFromFields(u, ClearingApplicationPatch(form));
  }

  /**
   * With the corrected record and the date step, what is stored is what
   * the form shows: an emptied string or salary clears the column, and
   * every other field takes the form's value.
   */
  lemma EditStoresWhatTheFormShows(app: Application, form: ApplicationForm, now: Time)
    requires FitsInt32(form.salaryMin) && FitsInt32(form.salaryMax) && Calendar.IsValidTime(form.applicationDay)
    ensures var body := ClearingUpdateBody(form);
      var p := DecodeApplicationPatch(ReviveDates(Picked(body, ApplicationAllowedFields), ApplicationDateFields));
      && Picked(body, ApplicationAllowedFields) == body
      && p.Some?
      && ApplyApplicationPatch(app, p.value, now)
         == app.(companyName := form.companyName, positionTitle := form.positionTitle, status := form.status,
                 jobUrl := Truthy(form.jobUrl), logoUrl := Truthy(form.logoUrl), location := Truthy(form.location),
                 notes := Truthy(form.notes), salaryMin := NonZero(form.salaryMin),
                 salaryMax := NonZero(form.salaryMax), isRemote := Some(form.isRemote == Some(true)),
                 applicationDate := form.applicationDay, updatedAt := now)
  {
    ClearingUpdatePassesAllowList(form);
    ClearingUpdateDecodes(form);
    ApplyFullApplicationPatch(app, ClearingApplicationPatch(form), now);
  }

  // ---------------------------------------------------------------- interviews

  lemma InterviewTypeDecodes(body: Body, t: InterviewType)
    requires "interviewType" in body && body["interviewType"] == JString(InterviewTypeName(t))
    ensures Field(body, "interviewType", AsInterviewType) == Some(Some(t))
  {
    match t
    case PhoneScreenInterview =>
    case TechnicalInterview =>
    case SystemDesign =>
    case Behavioral =>
    case FinalInterview =>
    case Other =>
  }

  lemma InterviewStatusDecodes(body: Body, s: InterviewStatus)
    requires "status" in body && body["status"] == JString(InterviewStatusName(s))
    ensures Field(body, "status", AsInterviewStatus) == Some(Some(s))
  {
    match s
    case Scheduled =>
    case Completed =>
    case Cancelled =>
  }

  /** The patch the edit-interview record decodes to: the form's fields, and the notes it has no field for untouched. */
  function SentInterviewPatch(form: InterviewForm, zoneOffset: int): InterviewPatch {
    InterviewPatch(Some(form.applicationId), Some(form.interviewType), Some(LocalNoon(form.interviewDay, zoneOffset)),
                   NumberUpdate(form.durationMinutes), Some(Some(form.interviewerNames)), Some(Some(form.platform)),
                   Some(form.status), Some(Some(form.prepNotes)), None, None, NumberUpdate(form.rating), None)
  }

  lemma InterviewUpdatePassesAllowList(form: InterviewForm, zoneOffset: int)
    ensures Picked(InterviewUpdateBody(form, zoneOffset), InterviewAllowedFields) == InterviewUpdateBody(form, zoneOffset)
  {
    PickedKeepsAllowed(InterviewUpdateBody(form, zoneOffset), InterviewAllowedFields);
  }

  /**
   * As written, the edit-interview dialog cannot save either: its record is
   * not empty, but its date is an ISO string, which the timestamp column
   * does not take.
   */
  lemma EditInterviewDateDoesNotFit(form: InterviewForm, zoneOffset: int)
    requires Calendar.IsValidTime(LocalNoon(form.interviewDay, zoneOffset))
    ensures var u := Picked(InterviewUpdateBody(form, zoneOffset), InterviewAllowedFields);
      u != map[] && !FitsColumns(u, InterviewFieldColumns) && DecodeInterviewPatch(u).None?
  {
    var body := InterviewUpdateBody(form, zoneOffset);
    InterviewUpdatePassesAllowList(form, zoneOffset);
    UpdateBodyCarriesFormFields(form, zoneOffset);
    InterviewDateStringDoesNotFit(body);
  }

  /**
   * Saving the edit-interview dialog through the route as written: a 404
   * when the caller cannot reach the interview, a 500 otherwise, and
   * nothing changes.
   */
  method SaveInterviewDialog(store: Store, id: Id, form: InterviewForm, zoneOffset: int) returns (reply: Reply)
    requires store.Valid() && Calendar.IsValidTime(LocalNoon(form.interviewDay, zoneOffset))
    modifies store
    ensures reply.status in {404, 500}
    ensures reply.status == 500 <==> old(store.OwnsInterview(MockUserId, id))
    ensures store.interviews == old(store.interviews)
  {
    EditInterviewDateDoesNotFit(form, zoneOffset);
    reply := PatchInterviewRoute(store, id, InterviewUpdateBody(form, zoneOffset));
  }

  lemma RevivedInterviewChoices(body: Body, form: InterviewForm)
    requires Carries(body, "applicationId", Some(JString(form.applicationId)))
    requires Carries(body, "interviewType", Some(JString(InterviewTypeName(form.interviewType))))
    requires Carries(body, "status", Some(JString(InterviewStatusName(form.status))))
    ensures var u := ReviveDates(body, InterviewDateFields);
      && Field(u, "applicationId", AsString) == Some(Some(form.applicationId))
      && Field(u, "interviewType", AsInterviewType) == Some(Some(form.interviewType))
      && Field(u, "status", AsInterviewStatus) == Some(Some(form.status))
  {
    var u := ReviveDates(body, InterviewDateFields);
    RevivedCarries(body, InterviewDateFields, "applicationId", Some(JString(form.applicationId)));
    RevivedCarries(body, InterviewDateFields, "interviewType", Some(JString(InterviewTypeName(form.interviewType))));
    RevivedCarries(body, InterviewDateFields, "status", Some(JString(InterviewStatusName(form.status))));
    StringDecodes(u, "applicationId", form.applicationId);
    InterviewTypeDecodes(u, form.interviewType);
    InterviewStatusDecodes(u, form.status);
  }

  lemma RevivedInterviewTexts(body: Body, form: InterviewForm)
    requires Carries(body, "platform", Some(JString(form.platform)))
    requires Carries(body, "interviewerNames", Some(JString(form.interviewerNames)))
    requires Carries(body, "prepNotes", Some(JString(form.prepNotes)))
    ensures var u := ReviveDates(body, InterviewDateFields);
      && Field(u, "platform", AsNullableString) == Some(Some(Some(form.platform)))
      && Field(u, "interviewerNames", AsNullableString) == Some(Some(Some(form.interviewerNames)))
      && Field(u, "prepNotes", AsNullableString) == Some(Some(Some(form.prepNotes)))
  {
    var u := ReviveDates(body, InterviewDateFields);
    RevivedCarries(body, InterviewDateFields, "platform", Some(JString(form.platform)));
    RevivedCarries(body, InterviewDateFields, "interviewerNames", Some(JString(form.interviewerNames)));
    RevivedCarries(body, InterviewDateFields, "prepNotes", Some(JString(form.prepNotes)));
    NullableStringDecodes(u, "platform", form.platform);
    NullableStringDecodes(u, "interviewerNames", form.interviewerNames);
    NullableStringDecodes(u, "prepNotes", form.prepNotes);
  }

  lemma RevivedInterviewNumbers(body: Body, form: InterviewForm)
    requires FitsInt32(form.durationMinutes) && FitsInt32(form.rating)
    requires Carries(body, "durationMinutes", NumberField(form.durationMinutes))
    requires Carries(body, "rating", NumberField(form.rating))
    ensures var u := ReviveDates(body, InterviewDateFields);
      && Field(u, "durationMinutes", AsNullableInt32) == Some(NumberUpdate(form.durationMinutes))
      && Field(u, "rating", AsNullableInt32) == Some(NumberUpdate(form.rating))
  {
    var u := ReviveDates(body, InterviewDateFields);
    RevivedCarries(body, InterviewDateFields, "durationMinutes", NumberField(form.durationMinutes));
    RevivedCarries(body, InterviewDateFields, "rating", NumberField(form.rating));
    NumberFieldDecodes(u, "durationMinutes", form.durationMinutes);
    NumberFieldDecodes(u, "rating", form.rating);
  }

  /** The three notes the dialog has no field for are not in its record. */
  lemma RevivedInterviewLeavesNotes(body: Body)
    requires Carries(body, "interviewNotes", None)
    requires Carries(body, "questionsAsked", None)
    requires Carries(body, "followUpActions", None)
    ensures var u := ReviveDates(body, InterviewDateFields);
      && Field(u, "interviewNotes", AsNullableString) == Some(None)
      && Field(u, "questionsAsked", AsNullableString) == Some(None)
      && Field(u, "followUpActions", AsNullableString) == Some(None)
  {
    RevivedCarries(body, InterviewDateFields, "interviewNotes", None);
    RevivedCarries(body, InterviewDateFields, "questionsAsked", None);
    RevivedCarries(body, InterviewDateFields, "followUpActions", None);
  }

  /**
   * With the date step, the route decodes every record of the dialog whose
   * numbers fit their columns and whose time a `Date` can hold.
   */
  lemma InterviewUpdateDecodes(form: InterviewForm, zoneOffset: int)
    requires FitsInt32(form.durationMinutes) && FitsInt32(form.rating)
    requires Calendar.IsValidTime(LocalNoon(form.interviewDay, zoneOffset))
    ensures DecodeInterviewPatch(ReviveDates(Picked(InterviewUpdateBody(form, zoneOffset), InterviewAllowedFields),
                                             InterviewDateFields))
         == Some(SentInterviewPatch(form, zoneOffset))
  {
    var t := LocalNoon(form.interviewDay, zoneOffset);
    var date := DateJson(t);
    var body := InterviewForms.UpdateBodyWithDate(form, date);
    var u := ReviveDates(body, InterviewDateFields);
    InterviewUpdatePassesAllowList(form, zoneOffset);
    BodyWithDateCarriesFormFields(form, date);
    ReviveSentDate(body, InterviewDateFields, "interviewDate", t);
    assert Field(u, "interviewDate", AsTimestamp) == Some(Some(t));
    RevivedInterviewChoices(body, form);
    RevivedInterviewTexts(body, form);
    BodyWithDateCarriesNumbers(form, date);
    RevivedInterviewNumbers(body, form);
    BodyWithDateLeavesNotes(form, date);
    RevivedInterviewLeavesNotes(body);
    InterviewDecodesFromFields(u, SentInterviewPatch(form, zoneOffset));
  }

  /**
   * With the date step, saving a valid form stores what the form shows:
   * its fields, the day as local noon, and the rating when one is given
   * (an empty rating keeps the stored one). The notes the dialog has no
   * field for are untouched.
   */
  lemma InterviewFormSaves(iv: Interview, form: InterviewForm, zoneOffset: int)
    requires FormValid(form) && FitsInt32(form.durationMinutes)
    requires Calendar.IsValidTime(LocalNoon(form.interviewDay, zoneOffset))
    ensures var r := InterviewUpdate(Some(iv), form, zoneOffset);
      && r.Some?
      && var u := ReviveDates(Picked(r.value, InterviewAllowedFields), InterviewDateFields);
      && Picked(r.value, InterviewAllowedFields) == r.value
      && u != map[]
      && DecodeInterviewPatch(u).Some?
      && ApplyInterviewPatch(iv, DecodeInterviewPatch(u).value)
         == iv.(applicationId := form.applicationId, interviewType := form.interviewType,
                interviewDate := LocalNoon(form.interviewDay, zoneOffset), durationMinutes := form.durationMinutes,
                interviewerNames := Some(form.interviewerNames), platform := Some(form.platform),
                status := form.status, prepNotes := Some(form.prepNotes),
                rating := if form.rating.Some? then form.rating else iv.rating)
  {
    InterviewUpdatePassesAllowList(form, zoneOffset);
    InterviewUpdateDecodes(form, zoneOffset);
    UpdateBodyCarriesFormFields(form, zoneOffset);
    var u := ReviveDates(InterviewUpdateBody(form, zoneOffset), InterviewDateFields);
    assert "applicationId" in u;
  }

  /**
   * With the date step, saving the edit-interview dialog without touching
   * it, when its form is valid, sends a record the route accepts whole.
   * The interview comes back as it was, except that it moves to local noon
   * of its UTC day and missing interviewer names or preparation notes
   * become empty strings.
   */
  lemma InterviewEditRoundTrip(iv: Interview, zoneOffset: int)
    requires FormValid(PopulateInterviewForm(iv)) && FitsInt32(iv.durationMinutes)
    requires Calendar.IsValidTime(LocalNoon(StartOfDay(iv.interviewDate), zoneOffset))
    ensures var r := InterviewUpdate(Some(iv), PopulateInterviewForm(iv), zoneOffset);
      && r.Some?
      && var u := ReviveDates(Picked(r.value, InterviewAllowedFields), InterviewDateFields);
      && Picked(r.value, InterviewAllowedFields) == r.value
      && DecodeInterviewPatch(u).Some?
      && ApplyInterviewPatch(iv, DecodeInterviewPatch(u).value)
         == iv.(interviewDate := LocalNoon(StartOfDay(iv.interviewDate), zoneOffset),
                interviewerNames := Some(iv.interviewerNames.GetOr("")),
                prepNotes := Some(iv.prepNotes.GetOr("")))
  {
    InterviewFormSaves(iv, PopulateInterviewForm(iv), zoneOffset);
    ShownNumberIsKept(iv.rating);
  }

  /**
   * Even with the date step, the dialog shows the UTC day but reads it
   * back as a local day. An interview at 04:00 UTC on 2 January 1970, seen
   * from UTC-8, is on the evening of 1 January; saving the dialog
   * untouched moves it to noon on 2 January.
   */
  lemma EditCanMoveInterviewToAnotherDay()
    ensures var iv := Interview("i", "a", PhoneScreenInterview, 100_800_000, Some(60), None, Some("Zoom"),
                                Scheduled, None, None, None, None, None, 0);
      var zoneOffset := -28_800_000;
      var r := InterviewUpdate(Some(iv), PopulateInterviewForm(iv), zoneOffset);
      && r.Some?
      && var u := ReviveDates(Picked(r.value, InterviewAllowedFields), InterviewDateFields);
      && DecodeInterviewPatch(u).Some?
      && LocalDay(iv.interviewDate, zoneOffset) == 0
      && LocalDay(ApplyInterviewPatch(iv, DecodeInterviewPatch(u).value).interviewDate, zoneOffset)
         == 86_400_000
  {
    var iv := Interview("i", "a", PhoneScreenInterview, 100_800_000, Some(60), None, Some("Zoom"),
                        Scheduled, None, None, None, None, None, 0);
    StartOfDayWithin(86_400_000, 100_800_000);
    InterviewEditRoundTrip(iv, -28_800_000);
    StartOfDayWithin(0, 72_000_000);
    StartOfDayWithin(86_400_000, 129_600_000);
  }

  /**
   * With the form filled from the local day and the date step, saving the
   * dialog untouched keeps the interview on the day it was shown on.
   */
  lemma InterviewEditKeepsLocalDay(iv: Interview, zoneOffset: int)
    requires FormValid(PopulateInterviewForm(iv)) && FitsInt32(iv.durationMinutes)
    requires Calendar.IsValidTime(LocalNoon(LocalDay(iv.interviewDate, zoneOffset), zoneOffset))
    ensures var r := InterviewUpdate(Some(iv), PopulateInterviewFormLocal(iv, zoneOffset), zoneOffset);
      && r.Some?
      && var u := ReviveDates(Picked(r.value, InterviewAllowedFields), InterviewDateFields);
      && DecodeInterviewPatch(u).Some?
      && LocalDay(ApplyInterviewPatch(iv, DecodeInterviewPatch(u).value).interviewDate, zoneOffset)
         == LocalDay(iv.interviewDate, zoneOffset)
  {
    var form := PopulateInterviewFormLocal(iv, zoneOffset);
    var shown := PopulateInterviewForm(iv);
    assert FormValid(form) by {
      assert form.durationMinutes == shown.durationMinutes && form.rating == shown.rating;
      assert form.platform == shown.platform;
    }
    InterviewFormSaves(iv, form, zoneOffset);
    var saved := ApplyInterviewPatch(iv, SentInterviewPatch(form, zoneOffset));
    assert saved.interviewDate == LocalNoon(form.interviewDay, zoneOffset);
    assert LocalDay(saved.interviewDate, zoneOffset) == LocalDay(iv.interviewDate, zoneOffset);
  }

  // ---------------------------------------------------------------- questions

  lemma QuestionTypeDecodes(body: Body, t: QuestionType)
    requires "questionType" in body && body["questionType"] == JString(QuestionTypeName(t))
    ensures Field(body, "questionType", AsQuestionType) == Some(Some(t))
    ensures ParseQuestionType(QuestionTypeName(t)) == Some(t)
  {
    match t
    case BehavioralQuestion =>
    case TechnicalQuestion =>
    case SystemDesignQuestion =>
    case CompanyCulture =>
  }

  /** The tag field the edit dialog shows parses back to the stored tags, or to none. */
  lemma ShownTagsParse(tags: Option<seq<string>>)
    requires tags.Some? ==> forall i :: 0 <= i < |tags.value| ==> IsWellFormedTag(tags.value[i])
    ensures ParseTags(ShowTags(tags)) == tags.GetOr([])
  {
    if tags.Some? {
      JoinThenParse(tags.value);
    } else {
      JoinThenParse([]);
    }
  }

  /** The patch the edit dialog's record decodes to. */
  function SentQuestionPatch(form: QuestionForm, tags: seq<string>, t: QuestionType): QuestionPatch {
    QuestionPatch(Some(form.questionText), if form.answerText != "" then Some(Some(form.answerText)) else None,
                  Some(t), Some(Some(form.isFavorite)), if tags != [] then Some(Some(tags)) else None)
  }

  lemma QuestionUpdateDecodes(form: QuestionForm, tags: seq<string>, t: QuestionType)
    requires form.questionType == QuestionTypeName(t)
    ensures DecodeQuestionPatch(EditQuestionBody(form, tags)) == Some(SentQuestionPatch(form, tags, t))
  {
    var body := EditQuestionBody(form, tags);
    StringDecodes(body, "questionText", form.questionText);
    QuestionTypeDecodes(body, t);
    if tags != [] {
      ReadTextArray(tags);
      assert body["tags"] == TextArray(tags);
    }
    QuestionDecodesFromFields(body, SentQuestionPatch(form, tags, t));
  }

  lemma QuestionUpdatePassesAllowList(form: QuestionForm, tags: seq<string>)
    ensures Picked(EditQuestionBody(form, tags), QuestionAllowedFields) == EditQuestionBody(form, tags)
  {
    PickedKeepsAllowed(EditQuestionBody(form, tags), QuestionAllowedFields);
  }

  /**
   * Saving the edit-question dialog stores the form: its text, type and
   * favourite flag, the answer when non-empty and the parsed tags when
   * there are any; an empty answer or tag field keeps what was stored.
   */
  lemma EditQuestionSaves(q: Question, form: QuestionForm, tagsInput: string)
    requires ParseQuestionType(form.questionType).Some?
    ensures var r := EditQuestionUpdate(Some(q), form, tagsInput);
      var tags := ParseTags(tagsInput);
      && r.Some?
      && Picked(r.value, QuestionAllowedFields) == r.value
      && r.value != map[]
      && DecodeQuestionPatch(r.value).Some?
      && ApplyQuestionPatch(q, DecodeQuestionPatch(r.value).value)
         == q.(questionText := form.questionText,
               answerText := if form.answerText != "" then Some(form.answerText) else q.answerText,
               questionType := ParseQuestionType(form.questionType).value, isFavorite := Some(form.isFavorite),
               tags := if tags != [] then Some(tags) else q.tags)
  {
    var t := ParseQuestionType(form.questionType).value;
    var tags := ParseTags(tagsInput);
    QuestionUpdatePassesAllowList(form, tags);
    QuestionUpdateDecodes(form, tags, t);
  }

  /**
   * Saving the edit-question dialog without touching it sends a record the
   * route accepts whole, and the question comes back as it was, with a
   * missing favourite flag made false. This needs the stored tags to be
   * tags as parsing makes them.
   */
  lemma EditQuestionRoundTrip(q: Question)
    requires q.tags.Some? ==> forall i :: 0 <= i < |q.tags.value| ==> IsWellFormedTag(q.tags.value[i])
    ensures var shown := PopulateQuestionForm(q);
      var r := EditQuestionUpdate(Some(q), shown.0, shown.1);
      && r.Some?
      && Picked(r.value, QuestionAllowedFields) == r.value
      && DecodeQuestionPatch(r.value).Some?
      && ApplyQuestionPatch(q, DecodeQuestionPatch(r.value).value) == q.(isFavorite := Some(q.isFavorite == Some(true)))
  {
    var shown := PopulateQuestionForm(q);
    var form, input := shown.0, shown.1;
    ShownTagsParse(q.tags);
    var tags := ParseTags(input);
    QuestionTypeDecodes(map["questionType" := JString(QuestionTypeName(q.questionType))], q.questionType);
    EditQuestionSaves(q, form, input);
    assert (if form.answerText != "" then Some(form.answerText) else q.answerText) == q.answerText;
    assert (if tags != [] then Some(tags) else q.tags) == q.tags;
  }
}
