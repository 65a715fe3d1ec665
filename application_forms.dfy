/**
 * The add-application dialog and the application details dialog: how a
 * form becomes an insert or an update record, and how the details dialog
 * fills its form from a stored application.
 *
 * A form's date field holds a day; here it is the UTC midnight that
 * `new Date("YYYY-MM-DD")` gives for it. A salary field holds a number
 * or nothing (`''` or never touched); the schema check has already
 * turned what was typed into one of those.
 */
module ApplicationForms {
  import opened Wrappers
  import opened Schema
  import opened JsonValues

  datatype ApplicationForm = ApplicationForm(
    companyName: string,
    positionTitle: string,
    status: ApplicationStatus,
    applicationDay: Time,
    jobUrl: string,
    logoUrl: string,
    location: string,
    isRemote: Option<bool>,
    notes: string,
    salaryMin: Option<int>,
    salaryMax: Option<int>)

  /** The add dialog opens on "applied", not remote, on the given day. */
  function AddApplicationDefaults(today: Time): (f: ApplicationForm)
    ensures f.status == Applied && f.isRemote == Some(false) && f.applicationDay == StartOfDay(today)
  {
    ApplicationForm("", "", Applied, StartOfDay(today), "", "", "", Some(false), "", None, None)
  }

  /**
   * `handleFormSubmit` of the add dialog: names and status as typed, the
   * day as a date, empty strings and zero salaries left out, remote only
   * when ticked, and never a logo.
   */
  function AddApplicationSubmission(form: ApplicationForm): (ins: InsertApplication)
    ensures ins.companyName == form.companyName && ins.positionTitle == form.positionTitle
    ensures ins.status == Some(form.status) && ins.applicationDate == form.applicationDay
    ensures ins.logoUrl.None?
    ensures ins.jobUrl.None? <==> form.jobUrl == ""
    ensures ins.location.None? <==> form.location == ""
    ensures ins.notes.None? <==> form.notes == ""
    ensures ins.jobUrl.Some? ==> ins.jobUrl.value == form.jobUrl
    ensures ins.location.Some? ==> ins.location.value == form.location
    ensures ins.notes.Some? ==> ins.notes.value == form.notes
    ensures ins.isRemote == Some(Some(form.isRemote == Some(true)))
    ensures ins.salaryMin.None? <==> form.salaryMin.None? || form.salaryMin.value == 0
    ensures ins.salaryMax.None? <==> form.salaryMax.None? || form.salaryMax.value == 0
    ensures ins.salaryMin.Some? ==> ins.salaryMin == form.salaryMin
    ensures ins.salaryMax.Some? ==> ins.salaryMax == form.salaryMax
  {
    InsertApplication(form.companyName, form.positionTitle, Truthy(form.jobUrl), None, Some(form.status),
                      NonZero(form.salaryMin), NonZero(form.salaryMax), Truthy(form.location),
                      Some(Some(Ticked(form.isRemote))), form.applicationDay, Truthy(form.notes))
  }

  /**
   * The details dialog's form for a stored application: missing strings
   * shown empty, a missing or zero salary shown empty, the date cut to
   * its UTC day, the remote flag as stored.
   */
  function PopulateApplicationForm(app: Application): (f: ApplicationForm)
    ensures f.companyName == app.companyName && f.positionTitle == app.positionTitle
    ensures f.status == app.status && f.isRemote == app.isRemote
    ensures f.applicationDay == StartOfDay(app.applicationDate)
    ensures f.jobUrl == "" <==> app.jobUrl.None? || app.jobUrl.value == ""
    ensures app.jobUrl.Some? ==> f.jobUrl == app.jobUrl.value
    ensures app.logoUrl.Some? ==> f.logoUrl == app.logoUrl.value
    ensures app.location.Some? ==> f.location == app.location.value
    ensures app.notes.Some? ==> f.notes == app.notes.value
    ensures f.salaryMin.None? <==> app.salaryMin.None? || app.salaryMin.value == 0
    ensures f.salaryMin.Some? ==> f.salaryMin == app.salaryMin
    ensures f.salaryMax.None? <==> app.salaryMax.None? || app.salaryMax.value == 0
    ensures f.salaryMax.Some? ==> f.salaryMax == app.salaryMax
  {
    ApplicationForm(app.companyName, app.positionTitle, app.status, StartOfDay(app.applicationDate),
                    app.jobUrl.GetOr(""), app.logoUrl.GetOr(""), app.location.GetOr(""), app.isRemote,
                    app.notes.GetOr(""), NonZero(app.salaryMin), NonZero(app.salaryMax))
  }

  /** What a form looks like once it has been through a save: the shapes the dialogs can show. */
  function Normalised(form: ApplicationForm): ApplicationForm {
    form.(applicationDay := StartOfDay(form.applicationDay), isRemote := Some(Ticked(form.isRemote)),
          salaryMin := NonZero(form.salaryMin), salaryMax := NonZero(form.salaryMax))
  }

  /**
   * Adding an application and opening it in the details dialog shows the
   * form as it was filled in, normalised, with no logo.
   */
  lemma AddThenPopulate(form: ApplicationForm, id: Id, userId: UserId, now: Time)
    ensures PopulateApplicationForm(NewApplication(id, userId, AddApplicationSubmission(form), now))
         == Normalised(form).(logoUrl := "")
  {
  }

  /** Normalising twice is normalising once. */
  lemma NormalisedIsIdempotent(form: ApplicationForm)
    ensures Normalised(Normalised(form)) == Normalised(form)
  {
    StartOfDayIsIdempotent(form.applicationDay);
  }

  // ---------------------------------------------------------------- the update record

  /** The keys an application update may carry. */
  const ApplicationUpdateKeys: set<string> :=
    {"companyName", "positionTitle", "jobUrl", "logoUrl", "status", "salaryMin",
     "salaryMax", "location", "isRemote", "applicationDate", "notes"}

  /**
   * The details dialog's update record, as `JSON.stringify` sends it:
   * names, status, date and remote flag always; the four optional
   * strings only when non-empty; a salary only when non-zero. The date is
   * a `Date`, which `JSON.stringify` writes as its ISO string.
   */
  function ApplicationUpdateBody(form: ApplicationForm): (body: Body)
    ensures body.Keys <= ApplicationUpdateKeys
  {
    UpdateBodyWithDate(form, DateJson(form.applicationDay))
  }

  /** The update record around an already written date. */
  function UpdateBodyWithDate(form: ApplicationForm, date: Json): (body: Body)
    ensures body.Keys <= ApplicationUpdateKeys
  {
    var fixed := map["companyName" := JString(form.companyName), "positionTitle" := JString(form.positionTitle),
                     "status" := JString(ApplicationStatusName(form.status)),
                     "applicationDate" := date, "isRemote" := JBool(Ticked(form.isRemote))];
    var texts := Put(Put(Put(Put(fixed, "jobUrl", TextField(form.jobUrl)), "logoUrl", TextField(form.logoUrl)),
                         "location", TextField(form.location)), "notes", TextField(form.notes));
    Put(Put(texts, "salaryMin", NumberField(form.salaryMin)), "salaryMax", NumberField(form.salaryMax))
  }

  /** Names, status, date and the remote flag are always sent. */
  lemma UpdateBodyCarriesFixedFields(form: ApplicationForm)
    ensures var body := ApplicationUpdateBody(form);
      Carries(body, "companyName", Some(JString(form.companyName)))
      && Carries(body, "positionTitle", Some(JString(form.positionTitle)))
      && Carries(body, "status", Some(JString(ApplicationStatusName(form.status))))
      && Carries(body, "applicationDate", Some(DateJson(form.applicationDay)))
      && Carries(body, "isRemote", Some(JBool(form.isRemote == Some(true))))
  {
    BodyWithDateCarriesFixedFields(form, DateJson(form.applicationDay));
  }

  lemma BodyWithDateCarriesFixedFields(form: ApplicationForm, date: Json)
    ensures var body := UpdateBodyWithDate(form, date);
      Carries(body, "companyName", Some(JString(form.companyName)))
      && Carries(body, "positionTitle", Some(JString(form.positionTitle)))
      && Carries(body, "status", Some(JString(ApplicationStatusName(form.status))))
      && Carries(body, "applicationDate", Some(date))
      && Carries(body, "isRemote", Some(JBool(form.isRemote == Some(true))))
  {
    BodyWithDateCarriesNames(form, date);
    BodyWithDateCarriesStatusDateAndFlag(form, date);
  }

  lemma BodyWithDateCarriesNames(form: ApplicationForm, date: Json)
    ensures var body := UpdateBodyWithDate(form, date);
      Carries(body, "companyName", Some(JString(form.companyName)))
      && Carries(body, "positionTitle", Some(JString(form.positionTitle)))
  {
  }

  lemma BodyWithDateCarriesStatusDateAndFlag(form: ApplicationForm, date: Json)
    ensures var body := UpdateBodyWithDate(form, date);
      Carries(body, "status", Some(JString(ApplicationStatusName(form.status))))
      && Carries(body, "applicationDate", Some(date))
      && Carries(body, "isRemote", Some(JBool(form.isRemote == Some(true))))
  {
  }

  /** The four optional strings are sent exactly when non-empty. */
  lemma UpdateBodyCarriesTexts(form: ApplicationForm)
    ensures var body := ApplicationUpdateBody(form);
      Carries(body, "jobUrl", TextField(form.jobUrl)) && Carries(body, "logoUrl", TextField(form.logoUrl))
      && Carries(body, "location", TextField(form.location)) && Carries(body, "notes", TextField(form.notes))
  {
    BodyWithDateCarriesTexts(form, DateJson(form.applicationDay));
  }

  lemma BodyWithDateCarriesTexts(form: ApplicationForm, date: Json)
    ensures var body := UpdateBodyWithDate(form, date);
      Carries(body, "jobUrl", TextField(form.jobUrl)) && Carries(body, "logoUrl", TextField(form.logoUrl))
      && Carries(body, "location", TextField(form.location)) && Carries(body, "notes", TextField(form.notes))
  {
  }

  /** A salary is sent exactly when it is non-zero. */
  lemma UpdateBodyCarriesSalaries(form: ApplicationForm)
    ensures var body := ApplicationUpdateBody(form);
      Carries(body, "salaryMin", NumberField(form.salaryMin)) && Carries(body, "salaryMax", NumberField(form.salaryMax))
  {
    BodyWithDateCarriesSalaries(form, DateJson(form.applicationDay));
  }

  lemma BodyWithDateCarriesSalaries(form: ApplicationForm, date: Json)
    ensures var body := UpdateBodyWithDate(form, date);
      Carries(body, "salaryMin", NumberField(form.salaryMin)) && Carries(body, "salaryMax", NumberField(form.salaryMax))
  {
  }

  /** `handleFormSubmit` of the details dialog: nothing without an application. */
  function ApplicationUpdate(app: Option<Application>, form: ApplicationForm): (r: Option<Body>)
    ensures r.Some? <==> app.Some?
    ensures r.Some? ==> r.value == ApplicationUpdateBody(form)
  {
    if app.None? then None else Some(ApplicationUpdateBody(form))
  }
}
