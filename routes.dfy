/**
 * The REST layer over the store: for each entity, the list, GET by id,
 * POST, PATCH and DELETE, mapped to status codes and error messages; and
 * the PATCH handlers' loop that copies the allow-listed fields of the
 * request body into the update record.
 *
 * Every handler acts for one fixed user, `MockUserId`: there is no
 * authentication yet. A request body is a JSON object: a map from field
 * name to JSON value, in which an `undefined` field is simply absent. A
 * PATCH body is not validated; its values go to the store as they are,
 * and whatever the store throws is answered with 500.
 */
module Routes {
  import opened Wrappers
  import opened Schema
  import opened Storage
  import opened JsonValues
  import opened Columns
  import Calendar
  import Seqs

  /** The user every handler acts for, until authentication exists. */
  const MockUserId: UserId := "mock-user-123"

  /** What a handler sends: a status code and a JSON body (none for 204). */
  datatype Reply = Reply(status: int, body: ReplyBody)

  datatype ReplyBody =
    | ErrorBody(error: string)
    | ApplicationBody(application: Application)
    | InterviewBody(interview: Interview)
    | InterviewsBody(interviews: seq<InterviewWithApplication>)
    | ApplicationsBody(applications: seq<Application>)
    | ResourcesBody(resources: seq<Resource>)
    | QuestionsBody(questions: seq<Question>)
    | StatsBody(total: nat, byStatus: map<ApplicationStatus, nat>)
    | ResourceBody(resource: Resource)
    | QuestionBody(question: Question)
    | NoContent

  function Error(status: int, message: string): Reply {
    Reply(status, ErrorBody(message))
  }

  // ---------------------------------------------------------------- allow-lists

  const ApplicationAllowedFields: seq<string> :=
    ["companyName", "positionTitle", "jobUrl", "logoUrl", "status", "salaryMin",
     "salaryMax", "location", "isRemote", "applicationDate", "notes"]
  const InterviewAllowedFields: seq<string> :=
    ["applicationId", "interviewType", "interviewDate", "durationMinutes",
     "interviewerNames", "platform", "status", "prepNotes", "interviewNotes",
     "questionsAsked", "rating", "followUpActions"]
  const ResourceAllowedFields: seq<string> :=
    ["title", "url", "category", "notes", "isReviewed", "linkedApplicationId"]
  const QuestionAllowedFields: seq<string> :=
    ["questionText", "answerText", "questionType", "isFavorite", "tags"]

  /**
   * Each allow-list is the insert shape's field list: 11, 12, 6 and 5
   * fields, none of them an id, an owner or a timestamp.
   */
  lemma AllowListsAreInsertFields()
    ensures ApplicationAllowedFields == ApplicationInsertFields && |ApplicationAllowedFields| == 11
    ensures InterviewAllowedFields == InterviewInsertFields && |InterviewAllowedFields| == 12
    ensures ResourceAllowedFields == ResourceInsertFields && |ResourceAllowedFields| == 6
    ensures QuestionAllowedFields == QuestionInsertFields && |QuestionAllowedFields| == 5
    ensures forall f :: f in ["id", "userId", "createdAt", "updatedAt"] ==>
      f !in ApplicationAllowedFields && f !in InterviewAllowedFields
      && f !in ResourceAllowedFields && f !in QuestionAllowedFields
  {
  }

  /**
   * The handlers' loop: for each allowed field, copy the body's value when
   * it is not undefined.
   */
  method PickFields(body: Body, allowedFields: seq<string>) returns (updates: Body)
    ensures updates == Picked(body, allowedFields)
  {
    updates := map[];
    for i := 0 to |allowedFields|
      invariant forall f :: f in updates <==> f in body && f in allowedFields[..i]
      invariant forall f :: f in updates ==> updates[f] == body[f]
    {
      var field := allowedFields[i];
      assert allowedFields[..i + 1] == allowedFields[..i] + [field];
      if field in body {
        updates := updates[field := body[field]];
      }
    }
    assert allowedFields[..|allowedFields|] == allowedFields;
  }

  /**
   * Picking keeps exactly the allowed fields the body has, so picking
   * twice changes nothing and a body with only allowed fields goes through
   * whole.
   */
  lemma PickedKeepsAllowed(body: Body, allowed: seq<string>)
    ensures forall f :: f in Picked(body, allowed) <==> f in body && f in allowed
    ensures forall f :: f in Picked(body, allowed) ==> Picked(body, allowed)[f] == body[f]
    ensures Picked(Picked(body, allowed), allowed) == Picked(body, allowed)
    ensures (forall f :: f in body ==> f in allowed) ==> Picked(body, allowed) == body
  {
  }

  // ---------------------------------------------------------------- the missing date step

  /** The fields the corrected handlers read back as dates. */
  const ApplicationDateFields: seq<string> := ["applicationDate"]
  const InterviewDateFields: seq<string> := ["interviewDate"]

  /**
   * Reading one value back as a date: an ISO string becomes the `Date` it
   * names, and any other value stays as it is.
   */
  function ReviveValue(j: Json): (r: Json)
    ensures (!j.JString? || Calendar.ParseIso(j.s).None?) ==> r == j
    ensures j.JString? && Calendar.ParseIso(j.s).Some? ==> r == JDate(Calendar.ParseIso(j.s).value)
    ensures r != j ==> r.JDate? && j == DateJson(r.t)
  {
    if j.JString? then
      match Calendar.ParseIso(j.s)
      case Some(t) => JDate(t)
      case None => j
    else j
  }

  /**
   * The server-side step the PATCH handlers lack: a date field whose value
   * is an ISO string, as `JSON.stringify` writes a `Date`, becomes the
   * `Date` it names. Every other field is left as it is.
   */
  function ReviveDates(u: Body, dateFields: seq<string>): (r: Body)
    ensures r.Keys == u.Keys
    ensures forall k :: k in u && k !in dateFields ==> r[k] == u[k]
    ensures forall k :: k in u && k in dateFields ==> r[k] == ReviveValue(u[k])
  {
    map k | k in u :: if k in dateFields then ReviveValue(u[k]) else u[k]
  }

  /** The string the client makes of a date is read back as that date. */
  lemma ReviveSentDate(u: Body, dateFields: seq<string>, k: string, t: Time)
    requires k in u && k in dateFields && Calendar.IsValidTime(t) && u[k] == DateJson(t)
    ensures ReviveDates(u, dateFields)[k] == JDate(t)
  {
    Calendar.ParseIsoString(t);
  }

  // ---------------------------------------------------------------- handlers

  /** GET /api/applications: the store's list, or 500 when its query throws. */
  method ListApplicationsRoute(store: Store, status: Option<string>, search: Option<string>) returns (reply: Reply)
    requires store.Valid()
    ensures reply.status in {200, 500}
    ensures reply.status == 500 <==> EnumFilterApplies(status) && ParseApplicationStatus(status.value).None?
    ensures reply.status == 500 ==> reply == Error(500, "Failed to fetch applications")
    ensures reply.status == 200 ==>
      && reply.body.ApplicationsBody?
      && (forall a :: a in reply.body.applications <==>
            a in store.applications.Values && ApplicationMatches(a, MockUserId, status, search))
      && Seqs.Distinct(reply.body.applications)
  {
    var applications := store.GetApplications(MockUserId, status, search);
    if applications.None? {
      return Error(500, "Failed to fetch applications");
    }
    reply := Reply(200, ApplicationsBody(applications.value));
  }

  /** GET /api/applications/stats: the caller's total and the count for each status that occurs. */
  method ApplicationStatsRoute(store: Store) returns (reply: Reply)
    requires store.Valid()
    ensures reply.status == 200 && reply.body.StatsBody?
    ensures reply.body.total == |store.ApplicationRowsOf(MockUserId)|
    ensures forall s :: Seqs.Get(reply.body.byStatus, s) == |set a | a in store.ApplicationRowsOf(MockUserId) && a.status == s|
    ensures forall s :: s in reply.body.byStatus ==> reply.body.byStatus[s] > 0
  {
    var total, byStatus := store.GetApplicationStats(MockUserId);
    reply := Reply(200, StatsBody(total, byStatus));
  }

  /** GET /api/interviews: a status that is not a label, "all" included, is a 500. */
  method ListInterviewsRoute(store: Store, applicationId: Option<string>, status: Option<string>) returns (reply: Reply)
    requires store.Valid()
    ensures reply.status in {200, 500}
    ensures reply.status == 500 <==> IsTruthy(status) && ParseInterviewStatus(status.value).None?
    ensures reply.status == 500 ==> reply == Error(500, "Failed to fetch interviews")
    ensures reply.status == 200 ==>
      && reply.body.InterviewsBody?
      && (forall v :: v in reply.body.interviews <==>
            && v.interview in store.interviews.Values
            && InterviewMatches(store.applications, v.interview, MockUserId, applicationId, status)
            && v == WithApplication(v.interview, store.applications[v.interview.applicationId]))
  {
    var interviews := store.GetInterviews(MockUserId, applicationId, status);
    if interviews.None? {
      return Error(500, "Failed to fetch interviews");
    }
    reply := Reply(200, InterviewsBody(interviews.value));
  }

  /** GET /api/resources */
  method ListResourcesRoute(store: Store, category: Option<string>) returns (reply: Reply)
    requires store.Valid()
    ensures reply.status in {200, 500}
    ensures reply.status == 500 <==> EnumFilterApplies(category) && ParseResourceCategory(category.value).None?
    ensures reply.status == 500 ==> reply == Error(500, "Failed to fetch resources")
    ensures reply.status == 200 ==>
      && reply.body.ResourcesBody?
      && (forall x :: x in reply.body.resources <==> x in store.resources.Values && ResourceMatches(x, MockUserId, category))
  {
    var resources := store.GetResources(MockUserId, category);
    if resources.None? {
      return Error(500, "Failed to fetch resources");
    }
    reply := Reply(200, ResourcesBody(resources.value));
  }

  /** GET /api/questions */
  method ListQuestionsRoute(store: Store, questionType: Option<string>, search: Option<string>) returns (reply: Reply)
    requires store.Valid()
    ensures reply.status in {200, 500}
    ensures reply.status == 500 <==> EnumFilterApplies(questionType) && ParseQuestionType(questionType.value).None?
    ensures reply.status == 500 ==> reply == Error(500, "Failed to fetch questions")
    ensures reply.status == 200 ==>
      && reply.body.QuestionsBody?
      && (forall q :: q in reply.body.questions <==>
            q in store.questions.Values && QuestionMatches(q, MockUserId, questionType, search))
  {
    var questions := store.GetQuestions(MockUserId, questionType, search);
    if questions.None? {
      return Error(500, "Failed to fetch questions");
    }
    reply := Reply(200, QuestionsBody(questions.value));
  }

  /** GET /api/applications/:id */
  method GetApplicationRoute(store: Store, id: Id) returns (reply: Reply)
    ensures reply.status == 200 || reply.status == 404
    ensures reply.status == 404 <==> !store.OwnsApplication(MockUserId, id)
    ensures reply.status == 404 ==> reply == Error(404, "Application not found")
    ensures reply.status == 200 ==> reply.body == ApplicationBody(store.applications[id])
  {
    var application := store.GetApplication(MockUserId, id);
    if application.None? {
      return Error(404, "Application not found");
    }
    reply := Reply(200, ApplicationBody(application.value));
  }

  /**
   * POST /api/applications. `validated` is what the insert schema makes of
   * the body, or `None` when it rejects it; then the store is not called.
   * A salary outside the 32-bit column makes the insert throw: a 500.
   */
  method PostApplicationRoute(store: Store, validated: Option<InsertApplication>, now: Time)
    returns (reply: Reply)
    requires store.Valid()
    modifies store
    ensures store.Valid()
    ensures reply.status in {201, 400, 500}
    ensures validated.None? ==> reply == Error(400, "Invalid application data")
    ensures reply.status == 500 <==> validated.Some? && !InsertApplicationFits(validated.value)
    ensures reply.status == 500 ==> reply == Error(500, "Failed to create application")
    ensures reply.status == 201 ==>
      reply == Reply(201, ApplicationBody(NewApplication(IdOf(old(store.nextId)), MockUserId, validated.value, now)))
      && store.applications.Keys == old(store.applications.Keys) + {IdOf(old(store.nextId))}
    ensures reply.status != 201 ==> store.applications == old(store.applications)
    ensures store.interviews == old(store.interviews) && store.users == old(store.users)
    ensures store.resources == old(store.resources) && store.questions == old(store.questions)
  {
    if validated.None? {
      return Error(400, "Invalid application data");
    }
    var application := store.CreateApplication(MockUserId, validated.value, now);
    if application.Failure? {
      return Error(500, "Failed to create application");
    }
    reply := Reply(201, ApplicationBody(application.value));
  }

  /**
   * PATCH /api/applications/:id: the allow-listed fields go to the store's
   * update as they are. What the update throws is a 500; no row is a 404.
   */
  method PatchApplicationRoute(store: Store, id: Id, body: Body, now: Time) returns (reply: Reply)
    requires store.Valid()
    modifies store
    ensures store.Valid()
    ensures reply.status in {200, 404, 500}
    ensures reply.status == 500 <==>
      || !FitsColumns(Picked(body, ApplicationAllowedFields), ApplicationFieldColumns)
      || (old(store.OwnsApplication(MockUserId, id))
          && ClearsRequired(Picked(body, ApplicationAllowedFields), ApplicationFieldColumns))
    ensures reply.status == 500 ==> reply == Error(500, "Failed to update application")
    ensures reply.status == 404 <==>
      FitsColumns(Picked(body, ApplicationAllowedFields), ApplicationFieldColumns)
      && !old(store.OwnsApplication(MockUserId, id))
    ensures reply.status == 404 ==> reply == Error(404, "Application not found")
    ensures reply.status == 200 ==>
      && DecodeApplicationPatch(Picked(body, ApplicationAllowedFields)).Some?
      && reply.body == ApplicationBody(ApplyApplicationPatch(old(store.applications[id]),
                                       DecodeApplicationPatch(Picked(body, ApplicationAllowedFields)).value, now))
      && store.applications == old(store.applications)[id := reply.body.application]
    ensures reply.status != 200 ==> store.applications == old(store.applications)
    ensures store.interviews == old(store.interviews) && store.users == old(store.users)
    ensures store.resources == old(store.resources) && store.questions == old(store.questions)
  {
    var updates := PickFields(body, ApplicationAllowedFields);
    AllowListsAreInsertFields();
    var result := store.UpdateApplication(MockUserId, id, updates, now);
    match result
    case Failed => reply := Error(500, "Failed to update application");
    case Unmatched => reply := Error(404, "Application not found");
    case Changed(application) => reply := Reply(200, ApplicationBody(application));
  }

  /**
   * The PATCH handler with the step it lacks: the ISO string that
   * `JSON.stringify` makes of the dialog's `Date` is read back as a date
   * before the update, so the dialog's save can succeed.
   */
  method PatchApplicationRouteWithDates(store: Store, id: Id, body: Body, now: Time) returns (reply: Reply)
    requires store.Valid()
    modifies store
    ensures store.Valid()
    ensures reply.status in {200, 404, 500}
    ensures reply.status == 500 <==>
      var u := ReviveDates(Picked(body, ApplicationAllowedFields), ApplicationDateFields);
      !FitsColumns(u, ApplicationFieldColumns)
      || (old(store.OwnsApplication(MockUserId, id)) && ClearsRequired(u, ApplicationFieldColumns))
    ensures reply.status == 404 <==>
      FitsColumns(ReviveDates(Picked(body, ApplicationAllowedFields), ApplicationDateFields), ApplicationFieldColumns)
      && !old(store.OwnsApplication(MockUserId, id))
    ensures reply.status == 200 ==>
      var p := DecodeApplicationPatch(ReviveDates(Picked(body, ApplicationAllowedFields), ApplicationDateFields));
      && p.Some?
      && reply.body == ApplicationBody(ApplyApplicationPatch(old(store.applications[id]), p.value, now))
      && store.applications == old(store.applications)[id := reply.body.application]
    ensures reply.status != 200 ==> store.applications == old(store.applications)
    ensures store.interviews == old(store.interviews) && store.users == old(store.users)
    ensures store.resources == old(store.resources) && store.questions == old(store.questions)
  {
    var picked := PickFields(body, ApplicationAllowedFields);
    var updates := ReviveDates(picked, ApplicationDateFields);
    AllowListsAreInsertFields();
    var result := store.UpdateApplication(MockUserId, id, updates, now);
    match result
    case Failed => reply := Error(500, "Failed to update application");
    case Unmatched => reply := Error(404, "Application not found");
    case Changed(application) => reply := Reply(200, ApplicationBody(application));
  }

  /** DELETE /api/applications/:id: 204 with no body when a row went, 404 otherwise. */
  method DeleteApplicationRoute(store: Store, id: Id) returns (reply: Reply)
    requires store.Valid()
    modifies store
    ensures store.Valid()
    ensures reply.status == 204 <==> old(store.OwnsApplication(MockUserId, id))
    ensures reply.status == 204 ==> reply.body == NoContent && store.applications == old(store.applications) - {id}
    ensures reply.status != 204 ==> reply == Error(404, "Application not found") && store.applications == old(store.applications)
    ensures store.interviews == old(store.interviews)
  {
    var success := store.DeleteApplication(MockUserId, id);
    if !success {
      return Error(404, "Application not found");
    }
    reply := Reply(204, NoContent);
  }

  /**
   * GET /api/interviews/upcoming: `limit` is what `parseInt` makes of the
   * query parameter, 5 when it is missing. A negative limit adds no
   * `LIMIT`, so every upcoming interview is listed; 0 lists none.
   */
  method UpcomingInterviewsRoute(store: Store, limit: Option<int>, now: Time) returns (reply: Reply)
    requires store.Valid()
    ensures reply.status == 200 && reply.body.InterviewsBody?
    ensures var r := reply.body.interviews;
      && (limit.GetOr(5) >= 0 ==> |r| <= limit.GetOr(5))
      && (forall v :: v in r ==>
            && v.interview in store.interviews.Values
            && IsUpcoming(store.applications, v.interview, MockUserId, now)
            && v == WithApplication(v.interview, store.applications[v.interview.applicationId]))
      && Seqs.Distinct(r)
      && (forall i, j :: 0 <= i < j < |r| ==> r[i].interview.interviewDate <= r[j].interview.interviewDate)
      && (forall k :: (k in store.interviews && IsUpcoming(store.applications, store.interviews[k], MockUserId, now)
            && WithApplication(store.interviews[k], store.applications[store.interviews[k].applicationId]) !in r) ==>
              && limit.GetOr(5) >= 0 && |r| == limit.GetOr(5)
              && forall i :: 0 <= i < |r| ==> r[i].interview.interviewDate <= store.interviews[k].interviewDate)
  {
    var interviews := store.GetUpcomingInterviews(MockUserId, limit, now);
    reply := Reply(200, InterviewsBody(interviews));
  }

  /** GET /api/interviews/:id */
  method GetInterviewRoute(store: Store, id: Id) returns (reply: Reply)
    ensures reply.status == 200 || reply.status == 404
    ensures reply.status == 404 <==> !store.OwnsInterview(MockUserId, id)
    ensures reply.status == 404 ==> reply == Error(404, "Interview not found")
    ensures reply.status == 200 ==> reply.body == InterviewBody(store.interviews[id])
  {
    var interview := store.GetInterview(MockUserId, id);
    if interview.None? {
      return Error(404, "Interview not found");
    }
    reply := Reply(200, InterviewBody(interview.value));
  }

  /**
   * POST /api/interviews: 400 when the insert schema rejects the body, and
   * 500 when the application is not the caller's, because the store's
   * error is not a validation error, or when a duration or rating does not
   * fit its 32-bit column.
   */
  method PostInterviewRoute(store: Store, validated: Option<InsertInterview>, now: Time)
    returns (reply: Reply)
    requires store.Valid()
    modifies store
    ensures store.Valid()
    ensures reply.status in {201, 400, 500}
    ensures reply.status == 400 <==> validated.None?
    ensures reply.status == 400 ==> reply == Error(400, "Invalid interview data")
    ensures reply.status == 500 <==>
      validated.Some? && (!old(store.OwnsApplication(MockUserId, validated.value.applicationId))
                          || !InsertInterviewFits(validated.value))
    ensures reply.status == 500 ==> reply == Error(500, "Failed to create interview")
    ensures reply.status == 201 ==>
      reply == Reply(201, InterviewBody(NewInterview(IdOf(old(store.nextId)), validated.value, now)))
    ensures reply.status != 201 ==> store.interviews == old(store.interviews)
    ensures store.applications == old(store.applications)
  {
    if validated.None? {
      return Error(400, "Invalid interview data");
    }
    var interview := store.CreateInterview(MockUserId, validated.value, now);
    if interview.Failure? {
      return Error(500, "Failed to create interview");
    }
    reply := Reply(201, InterviewBody(interview.value));
  }

  /**
   * PATCH /api/interviews/:id over `updateInterview` as written: the
   * ownership check comes first, so an interview the caller cannot reach
   * is a 404 whatever the body holds; then an empty or unfit record is a
   * 500. The new `applicationId` is not checked.
   */
  method PatchInterviewRoute(store: Store, id: Id, body: Body) returns (reply: Reply)
    requires store.Valid()
    modifies store
    ensures store.Valid()
    ensures reply.status in {200, 404, 500}
    ensures reply.status == 404 <==> !old(store.OwnsInterview(MockUserId, id))
    ensures reply.status == 404 ==> reply == Error(404, "Interview not found")
    ensures reply.status == 500 <==>
      old(store.OwnsInterview(MockUserId, id))
      && (Picked(body, InterviewAllowedFields) == map[]
          || DecodeInterviewPatch(Picked(body, InterviewAllowedFields)).None?)
    ensures reply.status == 500 ==> reply == Error(500, "Failed to update interview")
    ensures reply.status == 200 ==>
      && DecodeInterviewPatch(Picked(body, InterviewAllowedFields)).Some?
      && reply.body == InterviewBody(ApplyInterviewPatch(old(store.interviews[id]),
                                     DecodeInterviewPatch(Picked(body, InterviewAllowedFields)).value))
      && store.interviews == old(store.interviews)[id := reply.body.interview]
    ensures reply.status != 200 ==> store.interviews == old(store.interviews)
    ensures store.applications == old(store.applications)
  {
    var updates := PickFields(body, InterviewAllowedFields);
    AllowListsAreInsertFields();
    var result := store.UpdateInterview(MockUserId, id, updates);
    match result
    case Failed => reply := Error(500, "Failed to update interview");
    case Unmatched => reply := Error(404, "Interview not found");
    case Changed(interview) => reply := Reply(200, InterviewBody(interview));
  }

  /**
   * The interview PATCH with both corrections: the ISO date string is read
   * back as a date, and the store's checked update refuses to move the
   * interview under an application the caller does not own (answered like
   * a missing interview). No other user's interviews change.
   */
  method PatchInterviewRouteCorrected(store: Store, id: Id, body: Body) returns (reply: Reply)
    requires store.Valid()
    modifies store
    ensures store.Valid()
    ensures reply.status in {200, 404, 500}
    ensures reply.status == 500 <==>
      var u := ReviveDates(Picked(body, InterviewAllowedFields), InterviewDateFields);
      old(store.OwnsInterview(MockUserId, id)) && (u == map[] || DecodeInterviewPatch(u).None?)
    ensures reply.status == 404 <==>
      var u := ReviveDates(Picked(body, InterviewAllowedFields), InterviewDateFields);
      || !old(store.OwnsInterview(MockUserId, id))
      || (&& u != map[] && DecodeInterviewPatch(u).Some?
          && var p := DecodeInterviewPatch(u).value;
             p.applicationId.Some? && !old(store.OwnsApplication(MockUserId, p.applicationId.value)))
    ensures reply.status == 200 ==>
      var p := DecodeInterviewPatch(ReviveDates(Picked(body, InterviewAllowedFields), InterviewDateFields));
      && p.Some?
      && reply.body == InterviewBody(ApplyInterviewPatch(old(store.interviews[id]), p.value))
      && store.interviews == old(store.interviews)[id := reply.body.interview]
      && id in store.InterviewsOf(MockUserId)
    ensures reply.status != 200 ==> store.interviews == old(store.interviews)
    ensures store.applications == old(store.applications)
    ensures forall u :: u != MockUserId ==> store.InterviewsOf(u) == old(store.InterviewsOf(u))
  {
    var picked := PickFields(body, InterviewAllowedFields);
    var updates := ReviveDates(picked, InterviewDateFields);
    AllowListsAreInsertFields();
    var result := store.UpdateInterviewChecked(MockUserId, id, updates);
    match result
    case Failed => reply := Error(500, "Failed to update interview");
    case Unmatched => reply := Error(404, "Interview not found");
    case Changed(interview) => reply := Reply(200, InterviewBody(interview));
  }

  /** DELETE /api/interviews/:id */
  method DeleteInterviewRoute(store: Store, id: Id) returns (reply: Reply)
    requires store.Valid()
    modifies store
    ensures store.Valid()
    ensures reply.status == 204 <==> old(store.OwnsInterview(MockUserId, id))
    ensures reply.status == 204 ==> reply.body == NoContent && store.interviews == old(store.interviews) - {id}
    ensures reply.status != 204 ==> reply == Error(404, "Interview not found") && store.interviews == old(store.interviews)
  {
    var success := store.DeleteInterview(MockUserId, id);
    if !success {
      return Error(404, "Interview not found");
    }
    reply := Reply(204, NoContent);
  }

  /** GET /api/resources/:id */
  method GetResourceRoute(store: Store, id: Id) returns (reply: Reply)
    ensures reply.status == 200 || reply.status == 404
    ensures reply.status == 404 <==> !(id in store.resources && store.resources[id].userId == MockUserId)
    ensures reply.status == 404 ==> reply == Error(404, "Resource not found")
    ensures reply.status == 200 ==> reply.body == ResourceBody(store.resources[id])
  {
    var resource := store.GetResource(MockUserId, id);
    if resource.None? {
      return Error(404, "Resource not found");
    }
    reply := Reply(200, ResourceBody(resource.value));
  }

  /** POST /api/resources */
  method PostResourceRoute(store: Store, validated: Option<InsertResource>, now: Time)
    returns (reply: Reply)
    requires store.Valid()
    modifies store
    ensures store.Valid()
    ensures validated.None? ==>
      reply == Error(400, "Invalid resource data") && store.resources == old(store.resources)
    ensures validated.Some? ==>
      reply == Reply(201, ResourceBody(NewResource(IdOf(old(store.nextId)), MockUserId, validated.value, now)))
    ensures store.applications == old(store.applications) && store.interviews == old(store.interviews)
  {
    if validated.None? {
      return Error(400, "Invalid resource data");
    }
    var resource := store.CreateResource(MockUserId, validated.value, now);
    reply := Reply(201, ResourceBody(resource));
  }

  /**
   * PATCH /api/resources/:id: `updateResource` has no check beforehand, so
   * a body with no allow-listed field is a 500 even for an id the caller
   * does not own.
   */
  method PatchResourceRoute(store: Store, id: Id, body: Body) returns (reply: Reply)
    requires store.Valid()
    modifies store
    ensures store.Valid()
    ensures reply.status in {200, 404, 500}
    ensures reply.status == 500 <==>
      || Picked(body, ResourceAllowedFields) == map[]
      || !FitsColumns(Picked(body, ResourceAllowedFields), ResourceFieldColumns)
      || (old(id in store.resources && store.resources[id].userId == MockUserId)
          && ClearsRequired(Picked(body, ResourceAllowedFields), ResourceFieldColumns))
    ensures reply.status == 500 ==> reply == Error(500, "Failed to update resource")
    ensures reply.status == 404 <==>
      && Picked(body, ResourceAllowedFields) != map[]
      && FitsColumns(Picked(body, ResourceAllowedFields), ResourceFieldColumns)
      && !old(id in store.resources && store.resources[id].userId == MockUserId)
    ensures reply.status == 404 ==> reply == Error(404, "Resource not found")
    ensures reply.status == 200 ==>
      && DecodeResourcePatch(Picked(body, ResourceAllowedFields)).Some?
      && reply.body == ResourceBody(ApplyResourcePatch(old(store.resources[id]),
                                    DecodeResourcePatch(Picked(body, ResourceAllowedFields)).value))
      && store.resources == old(store.resources)[id := reply.body.resource]
    ensures reply.status != 200 ==> store.resources == old(store.resources)
  {
    var updates := PickFields(body, ResourceAllowedFields);
    AllowListsAreInsertFields();
    var result := store.UpdateResource(MockUserId, id, updates);
    match result
    case Failed => reply := Error(500, "Failed to update resource");
    case Unmatched => reply := Error(404, "Resource not found");
    case Changed(resource) => reply := Reply(200, ResourceBody(resource));
  }

  /** DELETE /api/resources/:id */
  method DeleteResourceRoute(store: Store, id: Id) returns (reply: Reply)
    requires store.Valid()
    modifies store
    ensures store.Valid()
    ensures reply.status == 204 <==> old(id in store.resources && store.resources[id].userId == MockUserId)
    ensures reply.status == 204 ==> reply.body == NoContent && store.resources == old(store.resources) - {id}
    ensures reply.status != 204 ==> reply == Error(404, "Resource not found") && store.resources == old(store.resources)
  {
    var success := store.DeleteResource(MockUserId, id);
    if !success {
      return Error(404, "Resource not found");
    }
    reply := Reply(204, NoContent);
  }

  /** GET /api/questions/:id */
  method GetQuestionRoute(store: Store, id: Id) returns (reply: Reply)
    ensures reply.status == 200 || reply.status == 404
    ensures reply.status == 404 <==> !(id in store.questions && store.questions[id].userId == MockUserId)
    ensures reply.status == 404 ==> reply == Error(404, "Question not found")
    ensures reply.status == 200 ==> reply.body == QuestionBody(store.questions[id])
  {
    var question := store.GetQuestion(MockUserId, id);
    if question.None? {
      return Error(404, "Question not found");
    }
    reply := Reply(200, QuestionBody(question.value));
  }

  /** POST /api/questions */
  method PostQuestionRoute(store: Store, validated: Option<InsertQuestion>, now: Time)
    returns (reply: Reply)
    requires store.Valid()
    modifies store
    ensures store.Valid()
    ensures validated.None? ==>
      reply == Error(400, "Invalid question data") && store.questions == old(store.questions)
    ensures validated.Some? ==>
      reply == Reply(201, QuestionBody(NewQuestion(IdOf(old(store.nextId)), MockUserId, validated.value, now)))
    ensures store.applications == old(store.applications) && store.interviews == old(store.interviews)
  {
    if validated.None? {
      return Error(400, "Invalid question data");
    }
    var question := store.CreateQuestion(MockUserId, validated.value, now);
    reply := Reply(201, QuestionBody(question));
  }

  /** PATCH /api/questions/:id: as the resource PATCH, over the question columns. */
  method PatchQuestionRoute(store: Store, id: Id, body: Body) returns (reply: Reply)
    requires store.Valid()
    modifies store
    ensures store.Valid()
    ensures reply.status in {200, 404, 500}
    ensures reply.status == 500 <==>
      || Picked(body, QuestionAllowedFields) == map[]
      || !FitsColumns(Picked(body, QuestionAllowedFields), QuestionFieldColumns)
      || (old(id in store.questions && store.questions[id].userId == MockUserId)
          && ClearsRequired(Picked(body, QuestionAllowedFields), QuestionFieldColumns))
    ensures reply.status == 500 ==> reply == Error(500, "Failed to update question")
    ensures reply.status == 404 <==>
      && Picked(body, QuestionAllowedFields) != map[]
      && FitsColumns(Picked(body, QuestionAllowedFields), QuestionFieldColumns)
      && !old(id in store.questions && store.questions[id].userId == MockUserId)
    ensures reply.status == 404 ==> reply == Error(404, "Question not found")
    ensures reply.status == 200 ==>
      && DecodeQuestionPatch(Picked(body, QuestionAllowedFields)).Some?
      && reply.body == QuestionBody(ApplyQuestionPatch(old(store.questions[id]),
                                    DecodeQuestionPatch(Picked(body, QuestionAllowedFields)).value))
      && store.questions == old(store.questions)[id := reply.body.question]
    ensures reply.status != 200 ==> store.questions == old(store.questions)
  {
    var updates := PickFields(body, QuestionAllowedFields);
    AllowListsAreInsertFields();
    var result := store.UpdateQuestion(MockUserId, id, updates);
    match result
    case Failed => reply := Error(500, "Failed to update question");
    case Unmatched => reply := Error(404, "Question not found");
    case Changed(question) => reply := Reply(200, QuestionBody(question));
  }

  /** DELETE /api/questions/:id */
  method DeleteQuestionRoute(store: Store, id: Id) returns (reply: Reply)
    requires store.Valid()
    modifies store
    ensures store.Valid()
    ensures reply.status == 204 <==> old(id in store.questions && store.questions[id].userId == MockUserId)
    ensures reply.status == 204 ==> reply.body == NoContent && store.questions == old(store.questions) - {id}
    ensures reply.status != 204 ==> reply == Error(404, "Question not found") && store.questions == old(store.questions)
  {
    var success := store.DeleteQuestion(MockUserId, id);
    if !success {
      return Error(404, "Question not found");
    }
    reply := Reply(204, NoContent);
  }
}
