/**
 * The edit-interview dialog: the checks its form must pass, how it fills
 * the form from a stored interview, and the update record it sends.
 *
 * The date field holds a UTC day, as `toISOString().split("T")[0]`
 * shows it; on submit the day is read back as local noon, so the
 * browser's offset from UTC (local minus UTC, in milliseconds) is a
 * parameter. A number field holds a number or nothing (`''`).
 */
module InterviewForms {
  import opened Wrappers
  import opened Schema
  import opened JsonValues

  datatype InterviewForm = InterviewForm(
    applicationId: Id,
    interviewType: InterviewType,
    status: InterviewStatus,
    interviewDay: Time,
    durationMinutes: Option<int>,
    platform: string,
    interviewerNames: string,
    prepNotes: string,
    rating: Option<int>)

  /** The dialog opens on a phone screen, scheduled. */
  const DefaultInterviewType := PhoneScreenInterview
  const DefaultInterviewStatus := Scheduled

  /**
   * The form's schema: a duration of at least one minute, a rating left
   * empty or from 1 to 5, and a platform.
   */
  predicate FormValid(form: InterviewForm) {
    && form.durationMinutes.Some? && form.durationMinutes.value >= 1
    && (form.rating.None? || 1 <= form.rating.value <= 5)
    && form.platform != ""
  }

  /** The dialog's form for a stored interview. */
  function PopulateInterviewForm(iv: Interview): (f: InterviewForm)
    ensures f.applicationId == iv.applicationId && f.interviewType == iv.interviewType && f.status == iv.status
    ensures f.interviewDay == StartOfDay(iv.interviewDate)
    ensures f.platform == "" <==> iv.platform.None? || iv.platform.value == ""
    ensures iv.platform.Some? ==> f.platform == iv.platform.value
    ensures iv.interviewerNames.Some? ==> f.interviewerNames == iv.interviewerNames.value
    ensures iv.prepNotes.Some? ==> f.prepNotes == iv.prepNotes.value
    ensures f.durationMinutes.None? <==> iv.durationMinutes.None? || iv.durationMinutes.value == 0
    ensures f.rating.None? <==> iv.rating.None? || iv.rating.value == 0
    ensures f.durationMinutes.Some? ==> f.durationMinutes == iv.durationMinutes
    ensures f.rating.Some? ==> f.rating == iv.rating
  {
    InterviewForm(iv.applicationId, iv.interviewType, iv.status, StartOfDay(iv.interviewDate),
                  NonZero(iv.durationMinutes), iv.platform.GetOr(""), iv.interviewerNames.GetOr(""),
                  iv.prepNotes.GetOr(""), NonZero(iv.rating))
  }

  /**
   * A stored interview opens as a form that can be saved exactly when it
   * has a positive duration and a platform, and a rating that is missing,
   * zero or from 1 to 5.
   */
  lemma PopulatedFormValid(iv: Interview)
    ensures FormValid(PopulateInterviewForm(iv)) <==>
      && iv.durationMinutes.Some? && iv.durationMinutes.value >= 1
      && iv.platform.Some? && iv.platform.value != ""
      && (iv.rating.None? || iv.rating.value == 0 || 1 <= iv.rating.value <= 5)
  {
  }

  /** Noon, in milliseconds after midnight. */
  const NoonMillis: int := 43_200_000

  /** `new Date(`${day}T12:00:00`)`: noon of the day in the browser's zone. */
  function LocalNoon(day: Time, zoneOffset: int): (t: Time)
    ensures t + zoneOffset == day + NoonMillis
  {
    day + NoonMillis - zoneOffset
  }

  /** The keys an interview update from the dialog may carry. */
  const InterviewUpdateKeys: set<string> :=
    {"applicationId", "interviewType", "status", "interviewDate", "durationMinutes", "platform",
     "interviewerNames", "prepNotes", "rating"}

  /**
   * The dialog's record: the form's fields spread as they are, the day as
   * local noon (a `Date`, which `JSON.stringify` writes as its ISO
   * string), and a duration or rating only when non-zero.
   */
  function InterviewUpdateBody(form: InterviewForm, zoneOffset: int): (body: Body)
    ensures body.Keys <= InterviewUpdateKeys
  {
    UpdateBodyWithDate(form, DateJson(LocalNoon(form.interviewDay, zoneOffset)))
  }

  /** The dialog's record around an already written date. */
  function UpdateBodyWithDate(form: InterviewForm, date: Json): (body: Body)
    ensures body.Keys <= InterviewUpdateKeys
  {
    var fields := map["applicationId" := JString(form.applicationId),
                      "interviewType" := JString(InterviewTypeName(form.interviewType)),
                      "status" := JString(InterviewStatusName(form.status)),
                      "interviewDate" := date,
                      "platform" := JString(form.platform),
                      "interviewerNames" := JString(form.interviewerNames),
                      "prepNotes" := JString(form.prepNotes)];
    Put(Put(fields, "durationMinutes", NumberField(form.durationMinutes)), "rating", NumberField(form.rating))
  }

  /** The seven fields the spread always carries. */
  lemma UpdateBodyCarriesFormFields(form: InterviewForm, zoneOffset: int)
    ensures var body := InterviewUpdateBody(form, zoneOffset);
      && Carries(body, "applicationId", Some(JString(form.applicationId)))
      && Carries(body, "interviewType", Some(JString(InterviewTypeName(form.interviewType))))
      && Carries(body, "status", Some(JString(InterviewStatusName(form.status))))
      && Carries(body, "interviewDate", Some(DateJson(LocalNoon(form.interviewDay, zoneOffset))))
      && Carries(body, "platform", Some(JString(form.platform)))
      && Carries(body, "interviewerNames", Some(JString(form.interviewerNames)))
      && Carries(body, "prepNotes", Some(JString(form.prepNotes)))
  {
    BodyWithDateCarriesFormFields(form, DateJson(LocalNoon(form.interviewDay, zoneOffset)));
  }

  lemma BodyWithDateCarriesFormFields(form: InterviewForm, date: Json)
    ensures var body := UpdateBodyWithDate(form, date);
      && Carries(body, "applicationId", Some(JString(form.applicationId)))
      && Carries(body, "interviewType", Some(JString(InterviewTypeName(form.interviewType))))
      && Carries(body, "status", Some(JString(InterviewStatusName(form.status))))
      && Carries(body, "interviewDate", Some(date))
      && Carries(body, "platform", Some(JString(form.platform)))
      && Carries(body, "interviewerNames", Some(JString(form.interviewerNames)))
      && Carries(body, "prepNotes", Some(JString(form.prepNotes)))
  {
  }

  /** A duration or rating is sent exactly when it is non-zero. */
  lemma UpdateBodyCarriesNumbers(form: InterviewForm, zoneOffset: int)
    ensures var body := InterviewUpdateBody(form, zoneOffset);
      Carries(body, "durationMinutes", NumberField(form.durationMinutes))
      && Carries(body, "rating", NumberField(form.rating))
  {
    BodyWithDateCarriesNumbers(form, DateJson(LocalNoon(form.interviewDay, zoneOffset)));
  }

  lemma BodyWithDateCarriesNumbers(form: InterviewForm, date: Json)
    ensures var body := UpdateBodyWithDate(form, date);
      Carries(body, "durationMinutes", NumberField(form.durationMinutes))
      && Carries(body, "rating", NumberField(form.rating))
  {
  }

  /** The three notes the dialog has no field for are not in its record. */
  lemma BodyWithDateLeavesNotes(form: InterviewForm, date: Json)
    ensures var body := UpdateBodyWithDate(form, date);
      && Carries(body, "interviewNotes", None)
      && Carries(body, "questionsAsked", None)
      && Carries(body, "followUpActions", None)
  {
    var body := UpdateBodyWithDate(form, date);
    assert body.Keys <= InterviewUpdateKeys;
    assert "interviewNotes" !in InterviewUpdateKeys;
    assert "questionsAsked" !in InterviewUpdateKeys && "followUpActions" !in InterviewUpdateKeys;
  }

  /**
   * `handleSubmit(handleFormSubmit)`: nothing when the form fails its
   * schema or there is no interview, the record otherwise. A valid form
   * always sends its duration.
   */
  function InterviewUpdate(interview: Option<Interview>, form: InterviewForm, zoneOffset: int): (r: Option<Body>)
    ensures r.Some? <==> interview.Some? && FormValid(form)
    ensures r.Some? ==> r.value == InterviewUpdateBody(form, zoneOffset)
    ensures r.Some? ==> NumberField(form.durationMinutes) == Some(JNumber(form.durationMinutes.value))
  {
    if interview.None? || !FormValid(form) then None else Some(InterviewUpdateBody(form, zoneOffset))
  }

  // ---------------------------------------------------------------- the day shown and the day saved

  /** The calendar day a moment falls on in the browser's zone, as that day's UTC midnight. */
  function LocalDay(t: Time, zoneOffset: int): (d: Time)
    ensures d % DayMillis == 0 && d <= t + zoneOffset < d + DayMillis
  {
    StartOfDay(t + zoneOffset)
  }

  /** Noon of a local day falls on that day. */
  lemma LocalNoonIsOnItsDay(day: Time, zoneOffset: int)
    requires day % DayMillis == 0
    ensures LocalDay(LocalNoon(day, zoneOffset), zoneOffset) == day
  {
    StartOfDayWithin(day, day + NoonMillis);
  }

  /**
   * The form filled with the interview's local day instead of its UTC
   * day, so that the day shown is the day that submitting reads back.
   */
  function PopulateInterviewFormLocal(iv: Interview, zoneOffset: int): (f: InterviewForm)
    ensures f.interviewDay == LocalDay(iv.interviewDate, zoneOffset)
    ensures f.(interviewDay := PopulateInterviewForm(iv).interviewDay) == PopulateInterviewForm(iv)
    ensures LocalDay(LocalNoon(f.interviewDay, zoneOffset), zoneOffset) == LocalDay(iv.interviewDate, zoneOffset)
  {
    LocalNoonIsOnItsDay(LocalDay(iv.interviewDate, zoneOffset), zoneOffset);
    PopulateInterviewForm(iv).(interviewDay := LocalDay(iv.interviewDate, zoneOffset))
  }
}
