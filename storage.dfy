/**
 * The ownership-scoped store: a user table and four owned tables, each a
 * map from id to row. Every read, update and delete of an application,
 * resource or question filters on the caller's `userId`; interviews have no
 * owner column and belong to whoever owns their parent application (the
 * inner join of the queries). A row the caller does not own and a row that
 * does not exist give the same answer.
 *
 * The database is replaced by the maps. `gen_random_uuid()` is replaced by
 * a counter whose decimal digits are the next id, and the clock by a `now`
 * parameter.
 */
module Storage {
  import opened Wrappers
  import opened Schema
  import opened Text
  import opened Seqs
  import opened Queries
  import opened JsonValues
  import opened Columns

  // ---------------------------------------------------------------- ids

  function Digit(d: nat): (c: char)
    requires d < 10
    ensures IsDigit(c)
  {
    ('0' as int + d) as char
  }

  /** The decimal digits of `n`: the store's stand-in for a fresh uuid. */
  function IdOf(n: nat): (s: string)
    ensures |s| >= 1 && (n < 10 <==> |s| == 1)
    ensures forall i :: 0 <= i < |s| ==> IsDigit(s[i])
    decreases n
  {
    if n < 10 then [Digit(n)] else IdOf(n / 10) + [Digit(n % 10)]
  }

  /** Different counter values give different ids. */
  lemma {:induction false} IdOfInjective(a: nat, b: nat)
    ensures IdOf(a) == IdOf(b) ==> a == b
    decreases a
  {
    if IdOf(a) == IdOf(b) && a >= 10 {
      var s := IdOf(a);
      assert s[..|s| - 1] == IdOf(a / 10) && s[|s| - 1] == Digit(a % 10);
      assert s[..|s| - 1] == IdOf(b / 10) && s[|s| - 1] == Digit(b % 10);
      IdOfInjective(a / 10, b / 10);
    }
  }

  // ---------------------------------------------------------------- results and views

  datatype StoreError =
    | UniqueViolation   // a second user with the same username
    | AccessDenied      // an interview for an application the caller does not own
    | OutOfRange        // an integer outside the 32-bit `integer` column

  const AccessDeniedMessage := "Application not found or access denied"

  /**
   * What an `UPDATE … RETURNING` gives back: the rewritten row, no row
   * (none matched), or an error the statement throws.
   */
  datatype Updated<T> = Changed(row: T) | Unmatched | Failed

  /** An interview row with the three application columns the join adds. */
  datatype InterviewWithApplication = InterviewWithApplication(
    interview: Interview,
    companyName: string,
    positionTitle: string,
    jobUrl: Option<string>)

  function WithApplication(iv: Interview, a: Application): (v: InterviewWithApplication)
    ensures v.interview == iv && v.companyName == a.companyName
    ensures v.positionTitle == a.positionTitle && v.jobUrl == a.jobUrl
  {
    InterviewWithApplication(iv, a.companyName, a.positionTitle, a.jobUrl)
  }

  function ApplicationId(a: Application): Id { a.id }
  function ResourceId(r: Resource): Id { r.id }
  function QuestionId(q: Question): Id { q.id }
  function UserKey(u: User): Id { u.id }
  function ViewId(v: InterviewWithApplication): Id { v.interview.id }
  function ApplicationOwner(a: Application): UserId { a.userId }
  function ResourceOwner(r: Resource): UserId { r.userId }
  function QuestionOwner(q: Question): UserId { q.userId }

  // ---------------------------------------------------------------- filters

  /** A query parameter that is present and not the empty string. */
  predicate IsTruthy(p: Option<string>) {
    p.Some? && p.value != ""
  }

  /** An enum filter that applies: truthy and not the word "all". */
  predicate EnumFilterApplies(p: Option<string>) {
    IsTruthy(p) && p.value != "all"
  }

  /**
   * The rows `getApplications` returns: the caller's, with the status
   * named (unless absent, empty or "all"), whose company name or position
   * title contains the search term case-insensitively (unless it is absent
   * or empty).
   */
  ghost predicate ApplicationMatches(a: Application, userId: UserId, status: Option<string>, search: Option<string>) {
    && a.userId == userId
    && (EnumFilterApplies(status) ==> ApplicationStatusName(a.status) == status.value)
    && (IsTruthy(search) ==>
          ContainsIgnoreCase(a.companyName, search.value) || ContainsIgnoreCase(a.positionTitle, search.value))
  }

  /** The rows `getResources` returns: the caller's, in the category named unless absent, empty or "all". */
  ghost predicate ResourceMatches(r: Resource, userId: UserId, category: Option<string>) {
    && r.userId == userId
    && (EnumFilterApplies(category) ==> ResourceCategoryName(r.category) == category.value)
  }

  /** The rows `getQuestions` returns: the search looks at the question text only. */
  ghost predicate QuestionMatches(q: Question, userId: UserId, questionType: Option<string>, search: Option<string>) {
    && q.userId == userId
    && (EnumFilterApplies(questionType) ==> QuestionTypeName(q.questionType) == questionType.value)
    && (IsTruthy(search) ==> ContainsIgnoreCase(q.questionText, search.value))
  }

  /** The interview's parent application exists and belongs to `userId`. */
  ghost predicate ParentOwned(apps: map<Id, Application>, iv: Interview, userId: UserId) {
    iv.applicationId in apps && apps[iv.applicationId].userId == userId
  }

  /**
   * The rows `getInterviews` returns: owned through the parent, with the
   * application id and status named when truthy. Unlike the other lists
   * there is no "all" case, so "all" is compared with the enum like any
   * other word (and, not being a label, makes the query fail).
   */
  ghost predicate InterviewMatches(apps: map<Id, Application>, iv: Interview, userId: UserId,
                                   applicationId: Option<string>, status: Option<string>) {
    && ParentOwned(apps, iv, userId)
    && (IsTruthy(applicationId) ==> iv.applicationId == applicationId.value)
    && (IsTruthy(status) ==> InterviewStatusName(iv.status) == status.value)
  }

  /** The rows `getUpcomingInterviews` returns: owned, scheduled and not before `now`. */
  ghost predicate IsUpcoming(apps: map<Id, Application>, iv: Interview, userId: UserId, now: Time) {
    ParentOwned(apps, iv, userId) && iv.status == Scheduled && iv.interviewDate >= now
  }

  // ---------------------------------------------------------------- what each user can see

  ghost function OwnedBy<R>(table: map<Id, R>, owner: R -> UserId, u: UserId): map<Id, R> {
    map k | k in table && owner(table[k]) == u :: table[k]
  }

  /** The interviews `u` can reach: those whose parent application `u` owns. */
  ghost function VisibleInterviews(apps: map<Id, Application>, ivs: map<Id, Interview>, u: UserId): map<Id, Interview> {
    map k | k in ivs && ParentOwned(apps, ivs[k], u) :: ivs[k]
  }

  lemma OwnedByWrite<R>(table: map<Id, R>, owner: R -> UserId, k: Id, v: R, u: UserId)
    requires owner(v) != u && (k in table ==> owner(table[k]) != u)
    ensures OwnedBy(table[k := v], owner, u) == OwnedBy(table, owner, u)
  {
  }

  lemma OwnedByRemove<R>(table: map<Id, R>, owner: R -> UserId, k: Id, u: UserId)
    requires k in table ==> owner(table[k]) != u
    ensures OwnedBy(table - {k}, owner, u) == OwnedBy(table, owner, u)
  {
  }

  lemma VisibleAfterInterviewWrite(apps: map<Id, Application>, ivs: map<Id, Interview>, k: Id, iv: Interview, u: UserId)
    requires !ParentOwned(apps, iv, u) && (k in ivs ==> !ParentOwned(apps, ivs[k], u))
    ensures VisibleInterviews(apps, ivs[k := iv], u) == VisibleInterviews(apps, ivs, u)
  {
  }

  lemma VisibleAfterInterviewRemove(apps: map<Id, Application>, ivs: map<Id, Interview>, k: Id, u: UserId)
    requires k in ivs ==> !ParentOwned(apps, ivs[k], u)
    ensures VisibleInterviews(apps, ivs - {k}, u) == VisibleInterviews(apps, ivs, u)
  {
  }

  /** Writing an application row whose ownership by `u` does not change leaves `u`'s interviews alone. */
  lemma VisibleAfterApplicationWrite(apps: map<Id, Application>, ivs: map<Id, Interview>, k: Id, a: Application, u: UserId)
    requires (k in apps && apps[k].userId == u) <==> a.userId == u
    ensures VisibleInterviews(apps[k := a], ivs, u) == VisibleInterviews(apps, ivs, u)
  {
    var before := VisibleInterviews(apps, ivs, u);
    var after := VisibleInterviews(apps[k := a], ivs, u);
    forall j | j in ivs ensures (j in before <==> j in after) {
      assert ParentOwned(apps, ivs[j], u) <==> ParentOwned(apps[k := a], ivs[j], u);
    }
  }

  lemma VisibleAfterApplicationRemove(apps: map<Id, Application>, ivs: map<Id, Interview>, k: Id, u: UserId)
    requires k in apps ==> apps[k].userId != u
    ensures VisibleInterviews(apps - {k}, ivs, u) == VisibleInterviews(apps, ivs, u)
  {
    var before := VisibleInterviews(apps, ivs, u);
    var after := VisibleInterviews(apps - {k}, ivs, u);
    forall j | j in ivs ensures (j in before <==> j in after) {
      assert ParentOwned(apps, ivs[j], u) <==> ParentOwned(apps - {k}, ivs[j], u);
    }
  }

  // ---------------------------------------------------------------- the store

  class Store {
    var users: map<Id, User>
    var applications: map<Id, Application>
    var interviews: map<Id, Interview>
    var resources: map<Id, Resource>
    var questions: map<Id, Question>
    /** The counter behind fresh ids. */
    var nextId: nat

    /**
     * Every row sits under its own id, no id the counter has yet to issue
     * is in use, and usernames are unique.
     */
    ghost predicate Valid()
      reads this
    {
      && (forall k :: k in users ==> users[k].id == k)
      && (forall k :: k in applications ==> applications[k].id == k)
      && (forall k :: k in interviews ==> interviews[k].id == k)
      && (forall k :: k in resources ==> resources[k].id == k)
      && (forall k :: k in questions ==> questions[k].id == k)
      && (forall n: nat :: n >= nextId ==>
            && IdOf(n) !in users && IdOf(n) !in applications && IdOf(n) !in interviews
            && IdOf(n) !in resources && IdOf(n) !in questions)
      && (forall k, k' :: k in users && k' in users && users[k].username == users[k'].username ==> k == k')
    }

    /** Each stored row can be found again under its own id. */
    lemma RowsAreKeyed()
      requires Valid()
      ensures forall a :: a in applications.Values ==> a.id in applications && applications[a.id] == a
      ensures forall i :: i in interviews.Values ==> i.id in interviews && interviews[i.id] == i
      ensures forall r :: r in resources.Values ==> r.id in resources && resources[r.id] == r
      ensures forall q :: q in questions.Values ==> q.id in questions && questions[q.id] == q
    {
    }

    ghost function ApplicationsOf(u: UserId): map<Id, Application>
      reads this
    {
      OwnedBy(applications, ApplicationOwner, u)
    }

    /** The application rows `u` owns, as a set of values. */
    ghost function ApplicationRowsOf(u: UserId): set<Application>
      reads this
    {
      set a | a in applications.Values && a.userId == u
    }

    ghost function InterviewsOf(u: UserId): map<Id, Interview>
      reads this
    {
      VisibleInterviews(applications, interviews, u)
    }

    ghost function ResourcesOf(u: UserId): map<Id, Resource>
      reads this
    {
      OwnedBy(resources, ResourceOwner, u)
    }

    ghost function QuestionsOf(u: UserId): map<Id, Question>
      reads this
    {
      OwnedBy(questions, QuestionOwner, u)
    }

    ghost predicate OwnsApplication(userId: UserId, id: Id)
      reads this
    {
      id in applications && applications[id].userId == userId
    }

    ghost predicate OwnsInterview(userId: UserId, id: Id)
      reads this
    {
      id in interviews && ParentOwned(applications, interviews[id], userId)
    }

    constructor ()
      ensures Valid()
      ensures users == map[] && applications == map[] && interviews == map[]
      ensures resources == map[] && questions == map[] && nextId == 0
    {
      users := map[];
      applications := map[];
      interviews := map[];
      resources := map[];
      questions := map[];
      nextId := 0;
    }

    /** Draws the next id: in no table, and never drawn again. */
    method FreshId() returns (id: Id)
      requires Valid()
      modifies this
      ensures Valid()
      ensures id == IdOf(old(nextId)) && nextId == old(nextId) + 1
      ensures id !in users && id !in applications && id !in interviews && id !in resources && id !in questions
      ensures forall n: nat :: n >= nextId ==> IdOf(n) != id
      ensures users == old(users) && applications == old(applications) && interviews == old(interviews)
      ensures resources == old(resources) && questions == old(questions)
    {
      id := IdOf(nextId);
      forall n: nat | n >= nextId + 1 ensures IdOf(n) != id {
        IdOfInjective(n, nextId);
      }
      nextId := nextId + 1;
    }

    // -------------------------------------------------------------- users

    method GetUser(id: Id) returns (r: Option<User>)
      ensures r.Some? <==> id in users
      ensures r.Some? ==> r.value == users[id]
    {
      if id in users {
        r := Some(users[id]);
      } else {
        r := None;
      }
    }

    /** At most one user has a given username; this finds that one. */
    method GetUserByUsername(username: string) returns (r: Option<User>)
      requires Valid()
      ensures r.Some? <==> exists k :: k in users && users[k].username == username
      ensures r.Some? ==> r.value.id in users && users[r.value.id] == r.value && r.value.username == username
    {
      var rows := SelectRows(users, UserKey, (u: User) => u.username == username, (u: User) => 0);
      if |rows| == 0 {
        r := None;
      } else {
        r := Some(rows[0]);
        assert rows[0] in rows;
      }
    }

    /** Inserting a user whose username is taken violates the unique constraint. */
    method CreateUser(insertUser: InsertUser) returns (r: Result<User, StoreError>)
      requires Valid()
      modifies this
      ensures Valid()
      ensures r.Failure? <==> exists k :: k in old(users) && old(users)[k].username == insertUser.username
      ensures r.Failure? ==> r.error == UniqueViolation && users == old(users) && nextId == old(nextId)
      ensures r.Success? ==>
        && r.value == User(IdOf(old(nextId)), insertUser.username, insertUser.password)
        && r.value.id !in old(users)
        && users == old(users)[r.value.id := r.value]
      ensures applications == old(applications) && interviews == old(interviews)
      ensures resources == old(resources) && questions == old(questions)
    {
      var existing := GetUserByUsername(insertUser.username);
      if existing.Some? {
        r := Failure(UniqueViolation);
      } else {
        var id := FreshId();
        var user := User(id, insertUser.username, insertUser.password);
        users := users[id := user];
        r := Success(user);
      }
    }

    // -------------------------------------------------------------- applications

    /**
     * `getApplications`: the caller's applications that pass the filters,
     * each once, newest application date first. A status filter that is
     * not an `application_status` label makes the query throw (`None`).
     */
    method GetApplications(userId: UserId, status: Option<string>, search: Option<string>)
      returns (r: Option<seq<Application>>)
      requires Valid()
      ensures r.None? <==> EnumFilterApplies(status) && ParseApplicationStatus(status.value).None?
      ensures r.Some? ==> forall a :: a in r.value <==> a in applications.Values && ApplicationMatches(a, userId, status, search)
      ensures r.Some? ==> Distinct(r.value)
      ensures r.Some? ==> forall i, j :: 0 <= i < j < |r.value| ==> r.value[i].applicationDate >= r.value[j].applicationDate
    {
      if status.Some? && status.value != "" && status.value != "all" && ParseApplicationStatus(status.value).None? {
        return None;
      }
      var owner := (a: Application) => a.userId == userId;
      var conditions: seq<Application -> bool> := [owner];
      AllHoldOne(owner);
      if status.Some? && status.value != "" && status.value != "all" {
        var s := status.value;
        var c := (a: Application) => ApplicationStatusName(a.status) == s;
        AllHoldPush(conditions, c);
        conditions := conditions + [c];
      }
      if search.Some? && search.value != "" {
        var t := search.value;
        var c := (a: Application) => ContainsIgnoreCase(a.companyName, t) || ContainsIgnoreCase(a.positionTitle, t);
        AllHoldPush(conditions, c);
        conditions := conditions + [c];
      }
      var where := conditions;
      assert forall a :: AllHold(where, a) <==> ApplicationMatches(a, userId, status, search);
      var rows := SelectRows(applications, ApplicationId, (a: Application) => AllHold(where, a),
                             (a: Application) => -a.applicationDate);
      RowsAreKeyed();
      r := Some(rows);
    }

    method GetApplication(userId: UserId, id: Id) returns (r: Option<Application>)
      ensures r.Some? <==> OwnsApplication(userId, id)
      ensures r.Some? ==> r.value == applications[id]
    {
      if id in applications && applications[id].userId == userId {
        r := Some(applications[id]);
      } else {
        r := None;
      }
    }

    /** The row is stamped with the caller's id, whatever the payload held. */
    method CreateApplication(userId: UserId, application: InsertApplication, now: Time)
      returns (r: Result<Application, StoreError>)
      requires Valid()
      modifies this
      ensures Valid()
      ensures r.Failure? <==> !InsertApplicationFits(application)
      ensures r.Failure? ==> r.error == OutOfRange && applications == old(applications) && nextId == old(nextId)
      ensures r.Success? ==>
        && r.value == NewApplication(IdOf(old(nextId)), userId, application, now)
        && r.value.id !in old(applications) && applications == old(applications)[r.value.id := r.value]
        && nextId == old(nextId) + 1
      ensures users == old(users) && interviews == old(interviews)
      ensures resources == old(resources) && questions == old(questions)
      ensures forall u :: u != userId ==> ApplicationsOf(u) == old(ApplicationsOf(u))
      ensures forall u :: u != userId ==> InterviewsOf(u) == old(InterviewsOf(u))
    {
      if !InsertApplicationFits(application) {
        return Failure(OutOfRange);
      }
      var id := FreshId();
      var a := NewApplication(id, userId, application, now);
      forall u | u != userId
        ensures OwnedBy(applications[id := a], ApplicationOwner, u) == OwnedBy(applications, ApplicationOwner, u)
        ensures VisibleInterviews(applications[id := a], interviews, u) == VisibleInterviews(applications, interviews, u)
      {
        OwnedByWrite(applications, ApplicationOwner, id, a, u);
        VisibleAfterApplicationWrite(applications, interviews, id, a, u);
      }
      applications := applications[id := a];
      r := Success(a);
    }

    /**
     * `updateApplication`: sets the record's fields and `updatedAt` on the
     * caller's row. The values are bound before any row is looked at, so
     * one that does not fit its column fails whichever row the id names;
     * clearing a NOT NULL column fails only on a row that matches. The set
     * always holds `updatedAt`, so it is never empty.
     */
    method UpdateApplication(userId: UserId, id: Id, updates: Body, now: Time)
      returns (r: Updated<Application>)
      requires Valid()
      requires forall f :: f in updates ==> f in ApplicationInsertFields
      modifies this
      ensures Valid()
      ensures r.Failed? <==>
        || !FitsColumns(updates, ApplicationFieldColumns)
        || (old(OwnsApplication(userId, id)) && ClearsRequired(updates, ApplicationFieldColumns))
      ensures r.Unmatched? <==> FitsColumns(updates, ApplicationFieldColumns) && !old(OwnsApplication(userId, id))
      ensures r.Changed? ==>
        && DecodeApplicationPatch(updates).Some?
        && r.row == ApplyApplicationPatch(old(applications[id]), DecodeApplicationPatch(updates).value, now)
        && applications == old(applications)[id := r.row]
      ensures !r.Changed? ==> applications == old(applications)
      ensures users == old(users) && interviews == old(interviews) && nextId == old(nextId)
      ensures resources == old(resources) && questions == old(questions)
      ensures forall u :: u != userId ==> ApplicationsOf(u) == old(ApplicationsOf(u))
      ensures forall u :: InterviewsOf(u) == old(InterviewsOf(u))
    {
      if !FitsColumns(updates, ApplicationFieldColumns) {
        return Failed;
      }
      if !(id in applications && applications[id].userId == userId) {
        return Unmatched;
      }
      var patch := DecodeApplicationPatch(updates);
      if patch.None? {
        return Failed;
      }
      var a := ApplyApplicationPatch(applications[id], patch.value, now);
      forall u ensures VisibleInterviews(applications[id := a], interviews, u) == VisibleInterviews(applications, interviews, u) {
        VisibleAfterApplicationWrite(applications, interviews, id, a, u);
      }
      forall u | u != userId ensures OwnedBy(applications[id := a], ApplicationOwner, u) == OwnedBy(applications, ApplicationOwner, u) {
        OwnedByWrite(applications, ApplicationOwner, id, a, u);
      }
      applications := applications[id := a];
      r := Changed(a);
    }

    /**
     * Removes the caller's row; reports whether a row went. Interviews of
     * the removed application stay in their table (there is no cascade)
     * and no one can reach them any more.
     */
    method DeleteApplication(userId: UserId, id: Id) returns (removed: bool)
      requires Valid()
      modifies this
      ensures Valid()
      ensures removed <==> old(OwnsApplication(userId, id))
      ensures applications == if removed then old(applications) - {id} else old(applications)
      ensures users == old(users) && interviews == old(interviews) && nextId == old(nextId)
      ensures resources == old(resources) && questions == old(questions)
      ensures forall u :: u != userId ==> ApplicationsOf(u) == old(ApplicationsOf(u))
      ensures forall u :: u != userId ==> InterviewsOf(u) == old(InterviewsOf(u))
      ensures removed ==> forall k :: k in interviews && interviews[k].applicationId == id ==>
                            forall u :: k !in InterviewsOf(u)
    {
      if id in applications && applications[id].userId == userId {
        forall u | u != userId
          ensures OwnedBy(applications - {id}, ApplicationOwner, u) == OwnedBy(applications, ApplicationOwner, u)
          ensures VisibleInterviews(applications - {id}, interviews, u) == VisibleInterviews(applications, interviews, u)
        {
          OwnedByRemove(applications, ApplicationOwner, id, u);
          VisibleAfterApplicationRemove(applications, interviews, id, u);
        }
        applications := applications - {id};
        removed := true;
      } else {
        removed := false;
      }
    }

    /**
     * `getApplicationStats`: how many applications the caller has, and for
     * each status how many have it. A status no application has gets no
     * key, so the counts over the eight statuses add up to the total.
     */
    method GetApplicationStats(userId: UserId) returns (total: nat, byStatus: map<ApplicationStatus, nat>)
      requires Valid()
      ensures total == |ApplicationRowsOf(userId)|
      ensures forall s :: Get(byStatus, s) == |set a | a in ApplicationRowsOf(userId) && a.status == s|
      ensures forall s :: s in byStatus ==> byStatus[s] > 0
      ensures SumOver(AllApplicationStatuses, byStatus) == total
    {
      var apps := SelectRows(applications, ApplicationId, (a: Application) => a.userId == userId,
                             (a: Application) => 0);
      var owned := ApplicationRowsOf(userId);
      RowsAreKeyed();
      assert forall a :: a in apps <==> a in owned;
      byStatus := CountBy(apps, ApplicationStatusOf);
      total := |apps|;
      StatusTallyOfRows(apps, owned);
    }

    // -------------------------------------------------------------- interviews

    /** The inner join of interviews with their parent applications. */
    function Joined(): (j: map<Id, InterviewWithApplication>)
      reads this
      ensures forall k :: k in j <==> k in interviews && interviews[k].applicationId in applications
    {
      map k | k in interviews && interviews[k].applicationId in applications ::
        WithApplication(interviews[k], applications[interviews[k].applicationId])
    }

    /**
     * `getInterviews`: the interviews the caller reaches through their
     * applications, each joined with its application's company, title and
     * job URL, earliest first.
     */
    method GetInterviews(userId: UserId, applicationId: Option<string>, status: Option<string>)
      returns (r: Option<seq<InterviewWithApplication>>)
      requires Valid()
      ensures r.None? <==> IsTruthy(status) && ParseInterviewStatus(status.value).None?
      ensures r.Some? ==> forall v :: v in r.value <==>
        && v.interview in interviews.Values
        && InterviewMatches(applications, v.interview, userId, applicationId, status)
        && v == WithApplication(v.interview, applications[v.interview.applicationId])
      ensures r.Some? ==> Distinct(r.value)
      ensures r.Some? ==> forall i, j :: 0 <= i < j < |r.value| ==> r.value[i].interview.interviewDate <= r.value[j].interview.interviewDate
    {
      if status.Some? && status.value != "" && ParseInterviewStatus(status.value).None? {
        return None;
      }
      var apps := applications;
      var owner := (v: InterviewWithApplication) =>
        v.interview.applicationId in apps && apps[v.interview.applicationId].userId == userId;
      var conditions: seq<InterviewWithApplication -> bool> := [owner];
      AllHoldOne(owner);
      if applicationId.Some? && applicationId.value != "" {
        var p := applicationId.value;
        var c := (v: InterviewWithApplication) => v.interview.applicationId == p;
        AllHoldPush(conditions, c);
        conditions := conditions + [c];
      }
      if status.Some? && status.value != "" {
        var s := status.value;
        var c := (v: InterviewWithApplication) => InterviewStatusName(v.interview.status) == s;
        AllHoldPush(conditions, c);
        conditions := conditions + [c];
      }
      var where := conditions;
      assert forall v :: AllHold(where, v) <==> InterviewMatches(apps, v.interview, userId, applicationId, status);
      var joined := Joined();
      var rows := SelectRows(joined, ViewId, (v: InterviewWithApplication) => AllHold(where, v),
                             (v: InterviewWithApplication) => v.interview.interviewDate);
      r := Some(rows);
      forall v ensures v in rows <==>
        && v.interview in interviews.Values
        && InterviewMatches(applications, v.interview, userId, applicationId, status)
        && v == WithApplication(v.interview, applications[v.interview.applicationId])
      {
        if v.interview in interviews.Values {
          var k :| k in interviews && interviews[k] == v.interview;
          assert k == v.interview.id;
        }
      }
    }

    /**
     * `getUpcomingInterviews`: at most `limit` (5 when absent) of the
     * caller's scheduled interviews dated `now` or later, soonest first.
     * `.limit(limit)` adds a `LIMIT` only for a limit of 0 or more; a
     * negative one selects them all. An upcoming interview is left out
     * only when the list is full of interviews no later than it.
     */
    method GetUpcomingInterviews(userId: UserId, limit: Option<int>, now: Time)
      returns (r: seq<InterviewWithApplication>)
      requires Valid()
      ensures limit.GetOr(5) >= 0 ==> |r| <= limit.GetOr(5)
      ensures forall v :: v in r ==>
        && v.interview in interviews.Values
        && IsUpcoming(applications, v.interview, userId, now)
        && v == WithApplication(v.interview, applications[v.interview.applicationId])
      ensures Distinct(r)
      ensures forall i, j :: 0 <= i < j < |r| ==> r[i].interview.interviewDate <= r[j].interview.interviewDate
      ensures forall k :: (k in interviews && IsUpcoming(applications, interviews[k], userId, now)
                && WithApplication(interviews[k], applications[interviews[k].applicationId]) !in r) ==>
                  && limit.GetOr(5) >= 0 && |r| == limit.GetOr(5)
                  && forall i :: 0 <= i < |r| ==> r[i].interview.interviewDate <= interviews[k].interviewDate
    {
      var n := limit.GetOr(5);
      var rows := SelectUpcoming(userId, now);
      var take := if 0 <= n < |rows| then n else |rows|;
      r := rows[..take];
      LimitKeepsOrder(rows, (v: InterviewWithApplication) => v.interview.interviewDate, take);
      forall k | k in interviews && IsUpcoming(applications, interviews[k], userId, now)
                 && WithApplication(interviews[k], applications[interviews[k].applicationId]) !in r
        ensures n >= 0 && |r| == n && forall i :: 0 <= i < |r| ==> r[i].interview.interviewDate <= interviews[k].interviewDate
      {
        var v := WithApplication(interviews[k], applications[interviews[k].applicationId]);
        assert v.interview == interviews[k];
        CutOffRanksLast(rows, (v: InterviewWithApplication) => v.interview.interviewDate, take, v);
      }
    }

    /** The query behind `getUpcomingInterviews`, before its `LIMIT`. */
    method SelectUpcoming(userId: UserId, now: Time) returns (rows: seq<InterviewWithApplication>)
      requires Valid()
      ensures forall v :: v in rows <==>
        && v.interview in interviews.Values
        && IsUpcoming(applications, v.interview, userId, now)
        && v == WithApplication(v.interview, applications[v.interview.applicationId])
      ensures Distinct(rows)
      ensures SortedBy(rows, (v: InterviewWithApplication) => v.interview.interviewDate)
    {
      var apps := applications;
      var joined := Joined();
      var keep := (v: InterviewWithApplication) =>
        v.interview.applicationId in apps && apps[v.interview.applicationId].userId == userId
        && v.interview.status == Scheduled && v.interview.interviewDate >= now;
      rows := SelectRows(joined, ViewId, keep, (v: InterviewWithApplication) => v.interview.interviewDate);
      RowsAreKeyed();
    }

    method GetInterview(userId: UserId, id: Id) returns (r: Option<Interview>)
      ensures r.Some? <==> OwnsInterview(userId, id)
      ensures r.Some? ==> r.value == interviews[id]
    {
      if id in interviews && interviews[id].applicationId in applications
         && applications[interviews[id].applicationId].userId == userId {
        r := Some(interviews[id]);
      } else {
        r := None;
      }
    }

    /**
     * Inserts an interview only under an application the caller owns;
     * otherwise throws "Application not found or access denied" and
     * inserts nothing.
     */
    method CreateInterview(userId: UserId, interview: InsertInterview, now: Time)
      returns (r: Result<Interview, StoreError>)
      requires Valid()
      modifies this
      ensures Valid()
      ensures r.Failure? <==> !old(OwnsApplication(userId, interview.applicationId)) || !InsertInterviewFits(interview)
      ensures r.Failure? ==> interviews == old(interviews) && nextId == old(nextId)
      ensures r.Failure? ==> (r.error == AccessDenied <==> !old(OwnsApplication(userId, interview.applicationId)))
      ensures r.Failure? ==> r.error in {AccessDenied, OutOfRange}
      ensures r.Success? ==>
        && r.value == NewInterview(IdOf(old(nextId)), interview, now)
        && r.value.id !in old(interviews)
        && interviews == old(interviews)[r.value.id := r.value]
        && r.value.id in InterviewsOf(userId)
      ensures users == old(users) && applications == old(applications)
      ensures resources == old(resources) && questions == old(questions)
      ensures forall u :: u != userId ==> InterviewsOf(u) == old(InterviewsOf(u))
    {
      var app := GetApplication(userId, interview.applicationId);
      if app.None? {
        return Failure(AccessDenied);
      }
      if !InsertInterviewFits(interview) {
        return Failure(OutOfRange);
      }
      var id := FreshId();
      var iv := NewInterview(id, interview, now);
      forall u | u != userId
        ensures VisibleInterviews(applications, interviews[id := iv], u) == VisibleInterviews(applications, interviews, u)
      {
        VisibleAfterInterviewWrite(applications, interviews, id, iv, u);
      }
      interviews := interviews[id := iv];
      r := Success(iv);
    }

    /**
     * `updateInterview` as written: it first checks that the caller owns
     * the interview (through its current parent), then sets the record on
     * the row with that id. An empty record has nothing to set and throws;
     * so does a value that does not fit or a null for a NOT NULL column.
     * The new `applicationId` is not checked, so the update can move an
     * interview under another user's application (see
     * `ReparentMovesInterviewToAnotherUser`).
     */
    method UpdateInterview(userId: UserId, id: Id, updates: Body) returns (r: Updated<Interview>)
      requires Valid()
      requires forall f :: f in updates ==> f in InterviewInsertFields
      modifies this
      ensures Valid()
      ensures r.Unmatched? <==> !old(OwnsInterview(userId, id))
      ensures r.Failed? <==> old(OwnsInterview(userId, id)) && (updates == map[] || DecodeInterviewPatch(updates).None?)
      ensures r.Changed? ==>
        && DecodeInterviewPatch(updates).Some?
        && r.row == ApplyInterviewPatch(old(interviews[id]), DecodeInterviewPatch(updates).value)
        && interviews == old(interviews)[id := r.row]
      ensures !r.Changed? ==> interviews == old(interviews)
      ensures users == old(users) && applications == old(applications) && nextId == old(nextId)
      ensures resources == old(resources) && questions == old(questions)
    {
      if !(id in interviews && interviews[id].applicationId in applications
           && applications[interviews[id].applicationId].userId == userId) {
        return Unmatched;
      }
      if updates == map[] {
        return Failed;
      }
      var patch := DecodeInterviewPatch(updates);
      if patch.None? {
        return Failed;
      }
      var iv := ApplyInterviewPatch(interviews[id], patch.value);
      interviews := interviews[id := iv];
      r := Changed(iv);
    }

    /**
     * The update with the missing check: a new `applicationId` must also
     * name an application the caller owns, or nothing is written. No other
     * user's interviews change.
     */
    method UpdateInterviewChecked(userId: UserId, id: Id, updates: Body) returns (r: Updated<Interview>)
      requires Valid()
      requires forall f :: f in updates ==> f in InterviewInsertFields
      modifies this
      ensures Valid()
      ensures r.Failed? <==> old(OwnsInterview(userId, id)) && (updates == map[] || DecodeInterviewPatch(updates).None?)
      ensures r.Unmatched? <==>
        || !old(OwnsInterview(userId, id))
        || (&& updates != map[] && DecodeInterviewPatch(updates).Some?
            && var p := DecodeInterviewPatch(updates).value;
               p.applicationId.Some? && !old(OwnsApplication(userId, p.applicationId.value)))
      ensures r.Changed? ==>
        && DecodeInterviewPatch(updates).Some?
        && r.row == ApplyInterviewPatch(old(interviews[id]), DecodeInterviewPatch(updates).value)
        && interviews == old(interviews)[id := r.row]
        && id in InterviewsOf(userId)
      ensures !r.Changed? ==> interviews == old(interviews)
      ensures users == old(users) && applications == old(applications) && nextId == old(nextId)
      ensures resources == old(resources) && questions == old(questions)
      ensures forall u :: u != userId ==> InterviewsOf(u) == old(InterviewsOf(u))
    {
      if !(id in interviews && interviews[id].applicationId in applications
           && applications[interviews[id].applicationId].userId == userId) {
        return Unmatched;
      }
      var patch := DecodeInterviewPatch(updates);
      if updates == map[] || patch.None? {
        return Failed;
      }
      if patch.value.applicationId.Some? {
        var parent := patch.value.applicationId.value;
        if !(parent in applications && applications[parent].userId == userId) {
          return Unmatched;
        }
      }
      var iv := ApplyInterviewPatch(interviews[id], patch.value);
      forall u | u != userId
        ensures VisibleInterviews(applications, interviews[id := iv], u) == VisibleInterviews(applications, interviews, u)
      {
        VisibleAfterInterviewWrite(applications, interviews, id, iv, u);
      }
      interviews := interviews[id := iv];
      r := Changed(iv);
    }

    method DeleteInterview(userId: UserId, id: Id) returns (removed: bool)
      requires Valid()
      modifies this
      ensures Valid()
      ensures removed <==> old(OwnsInterview(userId, id))
      ensures interviews == if removed then old(interviews) - {id} else old(interviews)
      ensures users == old(users) && applications == old(applications) && nextId == old(nextId)
      ensures resources == old(resources) && questions == old(questions)
      ensures forall u :: u != userId ==> InterviewsOf(u) == old(InterviewsOf(u))
    {
      var existing := GetInterview(userId, id);
      if existing.None? {
        return false;
      }
      forall u | u != userId
        ensures VisibleInterviews(applications, interviews - {id}, u) == VisibleInterviews(applications, interviews, u)
      {
        VisibleAfterInterviewRemove(applications, interviews, id, u);
      }
      interviews := interviews - {id};
      removed := true;
    }

    // -------------------------------------------------------------- resources

    /**
     * `getResources`: the caller's resources in the category, newest first;
     * a category that is not a `resource_category` label makes the query
     * throw (`None`).
     */
    method GetResources(userId: UserId, category: Option<string>) returns (r: Option<seq<Resource>>)
      requires Valid()
      ensures r.None? <==> EnumFilterApplies(category) && ParseResourceCategory(category.value).None?
      ensures r.Some? ==> forall x :: x in r.value <==> x in resources.Values && ResourceMatches(x, userId, category)
      ensures r.Some? ==> Distinct(r.value)
      ensures r.Some? ==> forall i, j :: 0 <= i < j < |r.value| ==> r.value[i].createdAt >= r.value[j].createdAt
    {
      if category.Some? && category.value != "" && category.value != "all" && ParseResourceCategory(category.value).None? {
        return None;
      }
      var owner := (x: Resource) => x.userId == userId;
      var conditions: seq<Resource -> bool> := [owner];
      AllHoldOne(owner);
      if category.Some? && category.value != "" && category.value != "all" {
        var name := category.value;
        var c := (x: Resource) => ResourceCategoryName(x.category) == name;
        AllHoldPush(conditions, c);
        conditions := conditions + [c];
      }
      var where := conditions;
      assert forall x :: AllHold(where, x) <==> ResourceMatches(x, userId, category);
      var rows := SelectRows(resources, ResourceId, (x: Resource) => AllHold(where, x), (x: Resource) => -x.createdAt);
      RowsAreKeyed();
      r := Some(rows);
    }

    method GetResource(userId: UserId, id: Id) returns (r: Option<Resource>)
      ensures r.Some? <==> id in resources && resources[id].userId == userId
      ensures r.Some? ==> r.value == resources[id]
    {
      if id in resources && resources[id].userId == userId {
        r := Some(resources[id]);
      } else {
        r := None;
      }
    }

    method CreateResource(userId: UserId, resource: InsertResource, now: Time) returns (x: Resource)
      requires Valid()
      modifies this
      ensures Valid()
      ensures x == NewResource(IdOf(old(nextId)), userId, resource, now)
      ensures x.id !in old(resources) && resources == old(resources)[x.id := x]
      ensures nextId == old(nextId) + 1
      ensures users == old(users) && applications == old(applications)
      ensures interviews == old(interviews) && questions == old(questions)
      ensures forall u :: u != userId ==> ResourcesOf(u) == old(ResourcesOf(u))
    {
      var id := FreshId();
      x := NewResource(id, userId, resource, now);
      forall u | u != userId ensures OwnedBy(resources[id := x], ResourceOwner, u) == OwnedBy(resources, ResourceOwner, u) {
        OwnedByWrite(resources, ResourceOwner, id, x, u);
      }
      resources := resources[id := x];
    }

    /**
     * `updateResource`: sets the record on the caller's row, with no check
     * beforehand and no timestamp. An empty record throws whichever row
     * the id names, as does a value that does not fit; a null for a NOT
     * NULL column throws only on a row that matches.
     */
    method UpdateResource(userId: UserId, id: Id, updates: Body) returns (r: Updated<Resource>)
      requires Valid()
      requires forall f :: f in updates ==> f in ResourceInsertFields
      modifies this
      ensures Valid()
      ensures r.Failed? <==>
        || updates == map[]
        || !FitsColumns(updates, ResourceFieldColumns)
        || (old(id in resources && resources[id].userId == userId) && ClearsRequired(updates, ResourceFieldColumns))
      ensures r.Unmatched? <==>
        updates != map[] && FitsColumns(updates, ResourceFieldColumns) && !old(id in resources && resources[id].userId == userId)
      ensures r.Changed? ==>
        && DecodeResourcePatch(updates).Some?
        && r.row == ApplyResourcePatch(old(resources[id]), DecodeResourcePatch(updates).value)
        && resources == old(resources)[id := r.row]
      ensures !r.Changed? ==> resources == old(resources)
      ensures users == old(users) && applications == old(applications) && nextId == old(nextId)
      ensures interviews == old(interviews) && questions == old(questions)
      ensures forall u :: u != userId ==> ResourcesOf(u) == old(ResourcesOf(u))
    {
      if updates == map[] || !FitsColumns(updates, ResourceFieldColumns) {
        return Failed;
      }
      if !(id in resources && resources[id].userId == userId) {
        return Unmatched;
      }
      var patch := DecodeResourcePatch(updates);
      if patch.None? {
        return Failed;
      }
      var x := ApplyResourcePatch(resources[id], patch.value);
      forall u | u != userId ensures OwnedBy(resources[id := x], ResourceOwner, u) == OwnedBy(resources, ResourceOwner, u) {
        OwnedByWrite(resources, ResourceOwner, id, x, u);
      }
      resources := resources[id := x];
      r := Changed(x);
    }

    method DeleteResource(userId: UserId, id: Id) returns (removed: bool)
      requires Valid()
      modifies this
      ensures Valid()
      ensures removed <==> old(id in resources && resources[id].userId == userId)
      ensures resources == if removed then old(resources) - {id} else old(resources)
      ensures users == old(users) && applications == old(applications) && nextId == old(nextId)
      ensures interviews == old(interviews) && questions == old(questions)
      ensures forall u :: u != userId ==> ResourcesOf(u) == old(ResourcesOf(u))
    {
      if id in resources && resources[id].userId == userId {
        forall u | u != userId ensures OwnedBy(resources - {id}, ResourceOwner, u) == OwnedBy(resources, ResourceOwner, u) {
          OwnedByRemove(resources, ResourceOwner, id, u);
        }
        resources := resources - {id};
        removed := true;
      } else {
        removed := false;
      }
    }

    // -------------------------------------------------------------- questions

    /**
     * `getQuestions`: the caller's questions of the type whose text contains
     * the term, newest first; a type that is not a `question_type` label
     * makes the query throw (`None`).
     */
    method GetQuestions(userId: UserId, questionType: Option<string>, search: Option<string>)
      returns (r: Option<seq<Question>>)
      requires Valid()
      ensures r.None? <==> EnumFilterApplies(questionType) && ParseQuestionType(questionType.value).None?
      ensures r.Some? ==> forall q :: q in r.value <==> q in questions.Values && QuestionMatches(q, userId, questionType, search)
      ensures r.Some? ==> Distinct(r.value)
      ensures r.Some? ==> forall i, j :: 0 <= i < j < |r.value| ==> r.value[i].createdAt >= r.value[j].createdAt
    {
      if questionType.Some? && questionType.value != "" && questionType.value != "all" && ParseQuestionType(questionType.value).None? {
        return None;
      }
      var owner := (q: Question) => q.userId == userId;
      var conditions: seq<Question -> bool> := [owner];
      AllHoldOne(owner);
      if questionType.Some? && questionType.value != "" && questionType.value != "all" {
        var name := questionType.value;
        var c := (q: Question) => QuestionTypeName(q.questionType) == name;
        AllHoldPush(conditions, c);
        conditions := conditions + [c];
      }
      if search.Some? && search.value != "" {
        var t := search.value;
        var c := (q: Question) => ContainsIgnoreCase(q.questionText, t);
        AllHoldPush(conditions, c);
        conditions := conditions + [c];
      }
      var where := conditions;
      assert forall q :: AllHold(where, q) <==> QuestionMatches(q, userId, questionType, search);
      var rows := SelectRows(questions, QuestionId, (q: Question) => AllHold(where, q), (q: Question) => -q.createdAt);
      RowsAreKeyed();
      r := Some(rows);
    }

    method GetQuestion(userId: UserId, id: Id) returns (r: Option<Question>)
      ensures r.Some? <==> id in questions && questions[id].userId == userId
      ensures r.Some? ==> r.value == questions[id]
    {
      if id in questions && questions[id].userId == userId {
        r := Some(questions[id]);
      } else {
        r := None;
      }
    }

    method CreateQuestion(userId: UserId, question: InsertQuestion, now: Time) returns (q: Question)
      requires Valid()
      modifies this
      ensures Valid()
      ensures q == NewQuestion(IdOf(old(nextId)), userId, question, now)
      ensures q.id !in old(questions) && questions == old(questions)[q.id := q]
      ensures nextId == old(nextId) + 1
      ensures users == old(users) && applications == old(applications)
      ensures interviews == old(interviews) && resources == old(resources)
      ensures forall u :: u != userId ==> QuestionsOf(u) == old(QuestionsOf(u))
    {
      var id := FreshId();
      q := NewQuestion(id, userId, question, now);
      forall u | u != userId ensures OwnedBy(questions[id := q], QuestionOwner, u) == OwnedBy(questions, QuestionOwner, u) {
        OwnedByWrite(questions, QuestionOwner, id, q, u);
      }
      questions := questions[id := q];
    }

    /** `updateQuestion`: as `updateResource`, over the question columns. */
    method UpdateQuestion(userId: UserId, id: Id, updates: Body) returns (r: Updated<Question>)
      requires Valid()
      requires forall f :: f in updates ==> f in QuestionInsertFields
      modifies this
      ensures Valid()
      ensures r.Failed? <==>
        || updates == map[]
        || !FitsColumns(updates, QuestionFieldColumns)
        || (old(id in questions && questions[id].userId == userId) && ClearsRequired(updates, QuestionFieldColumns))
      ensures r.Unmatched? <==>
        updates != map[] && FitsColumns(updates, QuestionFieldColumns) && !old(id in questions && questions[id].userId == userId)
      ensures r.Changed? ==>
        && DecodeQuestionPatch(updates).Some?
        && r.row == ApplyQuestionPatch(old(questions[id]), DecodeQuestionPatch(updates).value)
        && questions == old(questions)[id := r.row]
      ensures !r.Changed? ==> questions == old(questions)
      ensures users == old(users) && applications == old(applications) && nextId == old(nextId)
      ensures interviews == old(interviews) && resources == old(resources)
      ensures forall u :: u != userId ==> QuestionsOf(u) == old(QuestionsOf(u))
    {
      if updates == map[] || !FitsColumns(updates, QuestionFieldColumns) {
        return Failed;
      }
      if !(id in questions && questions[id].userId == userId) {
        return Unmatched;
      }
      var patch := DecodeQuestionPatch(updates);
      if patch.None? {
        return Failed;
      }
      var q := ApplyQuestionPatch(questions[id], patch.value);
      forall u | u != userId ensures OwnedBy(questions[id := q], QuestionOwner, u) == OwnedBy(questions, QuestionOwner, u) {
        OwnedByWrite(questions, QuestionOwner, id, q, u);
      }
      questions := questions[id := q];
      r := Changed(q);
    }

    method DeleteQuestion(userId: UserId, id: Id) returns (removed: bool)
      requires Valid()
      modifies this
      ensures Valid()
      ensures removed <==> old(id in questions && questions[id].userId == userId)
      ensures questions == if removed then old(questions) - {id} else old(questions)
      ensures users == old(users) && applications == old(applications) && nextId == old(nextId)
      ensures interviews == old(interviews) && resources == old(resources)
      ensures forall u :: u != userId ==> QuestionsOf(u) == old(QuestionsOf(u))
    {
      if id in questions && questions[id].userId == userId {
        forall u | u != userId ensures OwnedBy(questions - {id}, QuestionOwner, u) == OwnedBy(questions, QuestionOwner, u) {
          OwnedByRemove(questions, QuestionOwner, id, u);
        }
        questions := questions - {id};
        removed := true;
      } else {
        removed := false;
      }
    }
  }

  /**
   * Tallying the statuses of a repeat-free listing of a set of applications
   * counts, for each status, the applications in the set that have it.
   */
  lemma StatusCountOfRows(apps: seq<Application>, owned: set<Application>, s: ApplicationStatus)
    requires Distinct(apps)
    requires forall a :: a in apps <==> a in owned
    ensures Get(Tally(apps, ApplicationStatusOf), s) == |set a | a in owned && a.status == s|
  {
    TallyCounts(apps, ApplicationStatusOf, s);
    CountKeyCardinality(apps, ApplicationStatusOf, s, set a | a in owned && a.status == s);
  }

  /** The tally has no zero entries and its entries over the eight statuses add up to the count. */
  lemma StatusTallyOfRows(apps: seq<Application>, owned: set<Application>)
    requires Distinct(apps)
    requires forall a :: a in apps <==> a in owned
    ensures |apps| == |owned|
    ensures forall s :: Get(Tally(apps, ApplicationStatusOf), s) == |set a | a in owned && a.status == s|
    ensures forall s :: s in Tally(apps, ApplicationStatusOf) ==> Tally(apps, ApplicationStatusOf)[s] > 0
    ensures SumOver(AllApplicationStatuses, Tally(apps, ApplicationStatusOf)) == |apps|
  {
    DistinctCardinality(apps, owned);
    forall s ensures Get(Tally(apps, ApplicationStatusOf), s) == |set a | a in owned && a.status == s| {
      StatusCountOfRows(apps, owned, s);
    }
    TallyPositive(apps, ApplicationStatusOf);
    ApplicationStatusesAreExact();
    TallySum(apps, ApplicationStatusOf, AllApplicationStatuses);
  }

  /**
   * What `updateInterview` as written allows. Alice owns the interview
   * "i1" through her application "a1"; an update from Alice that carries
   * Bob's application "b1" passes the ownership check, since the check
   * looks at "a1", and the rewritten row is Bob's interview and no longer
   * Alice's.
   */
  lemma ReparentMovesInterviewToAnotherUser()
    ensures var apps := map["a1" := Application("a1", "alice", "Acme", "Engineer", None, None, Applied,
                                                None, None, None, None, 0, None, 0, 0),
                            "b1" := Application("b1", "bob", "Globex", "Engineer", None, None, Applied,
                                                None, None, None, None, 0, None, 0, 0)];
      var ivs := map["i1" := Interview("i1", "a1", PhoneScreenInterview, 0, None, None, None, Scheduled,
                                       None, None, None, None, None, 0)];
      var after := ivs["i1" := ApplyInterviewPatch(ivs["i1"], EmptyInterviewPatch.(applicationId := Some("b1")))];
      && "i1" in VisibleInterviews(apps, ivs, "alice") && "i1" !in VisibleInterviews(apps, ivs, "bob")
      && "i1" !in VisibleInterviews(apps, after, "alice") && "i1" in VisibleInterviews(apps, after, "bob")
  {
  }
}
