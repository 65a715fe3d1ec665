/**
 * The entity schema: the five enumerations, the user table and the four
 * owned tables with their nullability and defaults, the shapes an insert
 * accepts (which columns each omits), and the partial-update records.
 *
 * A nullable column is an `Option<T>` (`None` is SQL NULL). In a partial
 * update every field is optional: `None` means the field is absent
 * (`undefined`), so for a nullable column the field is `Option<Option<T>>`
 * and `Some(None)` sets the column to NULL.
 */
module Schema {
  import opened Wrappers
  import Seqs

  /** Row identifiers and user identifiers are opaque strings. */
  type Id = string
  type UserId = string

  /** Timestamps, in milliseconds since the epoch. */
  type Time = int

  /** One day in milliseconds. */
  const DayMillis: int := 86_400_000

  /** Midnight, UTC, of the day `t` falls on: what a `YYYY-MM-DD` date string denotes. */
  function StartOfDay(t: Time): (d: Time)
    ensures d <= t < d + DayMillis && d % DayMillis == 0
  {
    t - t % DayMillis
  }

  /** Every moment of a day starts on that day's midnight. */
  lemma StartOfDayWithin(day: Time, t: Time)
    requires day % DayMillis == 0 && day <= t < day + DayMillis
    ensures StartOfDay(t) == day
  {
    var k := day / DayMillis;
    assert day == DayMillis * k;
    assert t == DayMillis * k + (t - day);
  }

  /** A midnight is its own day. */
  lemma StartOfDayIsIdempotent(t: Time)
    ensures StartOfDay(StartOfDay(t)) == StartOfDay(t)
  {
    StartOfDayWithin(StartOfDay(t), StartOfDay(t));
  }

  // ---------------------------------------------------------------- enums

  datatype ApplicationStatus =
    | Applied | PhoneScreen | Technical | Onsite | Final | Offer | Rejected | Withdrawn

  const AllApplicationStatuses: seq<ApplicationStatus> :=
    [Applied, PhoneScreen, Technical, Onsite, Final, Offer, Rejected, Withdrawn]

  function ApplicationStatusName(s: ApplicationStatus): string {
    match s
    case Applied => "applied"
    case PhoneScreen => "phone_screen"
    case Technical => "technical"
    case Onsite => "onsite"
    case Final => "final"
    case Offer => "offer"
    case Rejected => "rejected"
    case Withdrawn => "withdrawn"
  }

  /** The enum label's value, or `None` for a string that labels no status. */
  function ParseApplicationStatus(name: string): (r: Option<ApplicationStatus>)
    ensures r.Some? ==> ApplicationStatusName(r.value) == name
    ensures r.None? <==> forall s :: ApplicationStatusName(s) != name
  {
    if name == "applied" then Some(Applied)
    else if name == "phone_screen" then Some(PhoneScreen)
    else if name == "technical" then Some(Technical)
    else if name == "onsite" then Some(Onsite)
    else if name == "final" then Some(Final)
    else if name == "offer" then Some(Offer)
    else if name == "rejected" then Some(Rejected)
    else if name == "withdrawn" then Some(Withdrawn)
    else None
  }

  datatype InterviewType = PhoneScreenInterview | TechnicalInterview | SystemDesign | Behavioral | FinalInterview | Other

  const AllInterviewTypes: seq<InterviewType> :=
    [PhoneScreenInterview, TechnicalInterview, SystemDesign, Behavioral, FinalInterview, Other]

  function InterviewTypeName(t: InterviewType): string {
    match t
    case PhoneScreenInterview => "phone_screen"
    case TechnicalInterview => "technical"
    case SystemDesign => "system_design"
    case Behavioral => "behavioral"
    case FinalInterview => "final"
    case Other => "other"
  }

  function ParseInterviewType(name: string): (r: Option<InterviewType>)
    ensures r.Some? ==> InterviewTypeName(r.value) == name
    ensures r.None? <==> forall t :: InterviewTypeName(t) != name
  {
    if name == "phone_screen" then Some(PhoneScreenInterview)
    else if name == "technical" then Some(TechnicalInterview)
    else if name == "system_design" then Some(SystemDesign)
    else if name == "behavioral" then Some(Behavioral)
    else if name == "final" then Some(FinalInterview)
    else if name == "other" then Some(Other)
    else None
  }

  datatype InterviewStatus = Scheduled | Completed | Cancelled

  const AllInterviewStatuses: seq<InterviewStatus> := [Scheduled, Completed, Cancelled]

  function InterviewStatusName(s: InterviewStatus): string {
    match s
    case Scheduled => "scheduled"
    case Completed => "completed"
    case Cancelled => "cancelled"
  }

  function ParseInterviewStatus(name: string): (r: Option<InterviewStatus>)
    ensures r.Some? ==> InterviewStatusName(r.value) == name
    ensures r.None? <==> forall s :: InterviewStatusName(s) != name
  {
    if name == "scheduled" then Some(Scheduled)
    else if name == "completed" then Some(Completed)
    else if name == "cancelled" then Some(Cancelled)
    else None
  }

  datatype ResourceCategory = Algorithms | SystemDesignPrep | BehavioralPrep | CompanySpecific | Resume | OtherCategory

  const AllResourceCategories: seq<ResourceCategory> :=
    [Algorithms, SystemDesignPrep, BehavioralPrep, CompanySpecific, Resume, OtherCategory]

  function ResourceCategoryName(c: ResourceCategory): string {
    match c
    case Algorithms => "algorithms"
    case SystemDesignPrep => "system_design"
    case BehavioralPrep => "behavioral"
    case CompanySpecific => "company_specific"
    case Resume => "resume"
    case OtherCategory => "other"
  }

  function ParseResourceCategory(name: string): (r: Option<ResourceCategory>)
    ensures r.Some? ==> ResourceCategoryName(r.value) == name
    ensures r.None? <==> forall c :: ResourceCategoryName(c) != name
  {
    if name == "algorithms" then Some(Algorithms)
    else if name == "system_design" then Some(SystemDesignPrep)
    else if name == "behavioral" then Some(BehavioralPrep)
    else if name == "company_specific" then Some(CompanySpecific)
    else if name == "resume" then Some(Resume)
    else if name == "other" then Some(OtherCategory)
    else None
  }

  datatype QuestionType = BehavioralQuestion | TechnicalQuestion | SystemDesignQuestion | CompanyCulture

  const AllQuestionTypes: seq<QuestionType> :=
    [BehavioralQuestion, TechnicalQuestion, SystemDesignQuestion, CompanyCulture]

  function QuestionTypeName(t: QuestionType): string {
    match t
    case BehavioralQuestion => "behavioral"
    case TechnicalQuestion => "technical"
    case SystemDesignQuestion => "system_design"
    case CompanyCulture => "company_culture"
  }

  function ParseQuestionType(name: string): (r: Option<QuestionType>)
    ensures r.Some? ==> QuestionTypeName(r.value) == name
    ensures r.None? <==> forall t :: QuestionTypeName(t) != name
  {
    if name == "behavioral" then Some(BehavioralQuestion)
    else if name == "technical" then Some(TechnicalQuestion)
    else if name == "system_design" then Some(SystemDesignQuestion)
    else if name == "company_culture" then Some(CompanyCulture)
    else None
  }

  /** Each enumeration lists every value, once. */
  lemma ApplicationStatusesAreExact()
    ensures |AllApplicationStatuses| == 8 && Seqs.Distinct(AllApplicationStatuses)
    ensures forall s :: s in AllApplicationStatuses
    ensures forall s :: ParseApplicationStatus(ApplicationStatusName(s)) == Some(s)
  {
    forall s ensures s in AllApplicationStatuses {
      match s
      case Applied => assert AllApplicationStatuses[0] == s;
      case PhoneScreen => assert AllApplicationStatuses[1] == s;
      case Technical => assert AllApplicationStatuses[2] == s;
      case Onsite => assert AllApplicationStatuses[3] == s;
      case Final => assert AllApplicationStatuses[4] == s;
      case Offer => assert AllApplicationStatuses[5] == s;
      case Rejected => assert AllApplicationStatuses[6] == s;
      case Withdrawn => assert AllApplicationStatuses[7] == s;
    }
  }

  lemma InterviewTypesAreExact()
    ensures |AllInterviewTypes| == 6 && Seqs.Distinct(AllInterviewTypes)
    ensures forall t :: t in AllInterviewTypes
    ensures forall t :: ParseInterviewType(InterviewTypeName(t)) == Some(t)
  {
    forall t ensures t in AllInterviewTypes {
      match t
      case PhoneScreenInterview => assert AllInterviewTypes[0] == t;
      case TechnicalInterview => assert AllInterviewTypes[1] == t;
      case SystemDesign => assert AllInterviewTypes[2] == t;
      case Behavioral => assert AllInterviewTypes[3] == t;
      case FinalInterview => assert AllInterviewTypes[4] == t;
      case Other => assert AllInterviewTypes[5] == t;
    }
  }

  lemma InterviewStatusesAreExact()
    ensures |AllInterviewStatuses| == 3 && Seqs.Distinct(AllInterviewStatuses)
    ensures forall s :: s in AllInterviewStatuses
    ensures forall s :: ParseInterviewStatus(InterviewStatusName(s)) == Some(s)
  {
    forall s ensures s in AllInterviewStatuses {
      match s
      case Scheduled => assert AllInterviewStatuses[0] == s;
      case Completed => assert AllInterviewStatuses[1] == s;
      case Cancelled => assert AllInterviewStatuses[2] == s;
    }
  }

  lemma ResourceCategoriesAreExact()
    ensures |AllResourceCategories| == 6 && Seqs.Distinct(AllResourceCategories)
    ensures forall c :: c in AllResourceCategories
    ensures forall c :: ParseResourceCategory(ResourceCategoryName(c)) == Some(c)
  {
    forall c ensures c in AllResourceCategories {
      match c
      case Algorithms => assert AllResourceCategories[0] == c;
      case SystemDesignPrep => assert AllResourceCategories[1] == c;
      case BehavioralPrep => assert AllResourceCategories[2] == c;
      case CompanySpecific => assert AllResourceCategories[3] == c;
      case Resume => assert AllResourceCategories[4] == c;
      case OtherCategory => assert AllResourceCategories[5] == c;
    }
  }

  /** Exactly four question types: "experience" is not one of them. */
  lemma QuestionTypesAreExact()
    ensures |AllQuestionTypes| == 4 && Seqs.Distinct(AllQuestionTypes)
    ensures forall t :: t in AllQuestionTypes
    ensures forall t :: ParseQuestionType(QuestionTypeName(t)) == Some(t)
    ensures ParseQuestionType("experience") == None
  {
    forall t ensures t in AllQuestionTypes {
      match t
      case BehavioralQuestion => assert AllQuestionTypes[0] == t;
      case TechnicalQuestion => assert AllQuestionTypes[1] == t;
      case SystemDesignQuestion => assert AllQuestionTypes[2] == t;
      case CompanyCulture => assert AllQuestionTypes[3] == t;
    }
  }

  // ---------------------------------------------------------------- rows

  datatype User = User(id: Id, username: string, password: string)

  datatype InsertUser = InsertUser(username: string, password: string)

  datatype Application = Application(
    id: Id,
    userId: UserId,
    companyName: string,
    positionTitle: string,
    jobUrl: Option<string>,
    logoUrl: Option<string>,
    status: ApplicationStatus,
    salaryMin: Option<int>,
    salaryMax: Option<int>,
    location: Option<string>,
    isRemote: Option<bool>,
    applicationDate: Time,
    notes: Option<string>,
    createdAt: Time,
    updatedAt: Time)

  /** Interviews carry no owner: they belong to whoever owns `applicationId`. */
  datatype Interview = Interview(
    id: Id,
    applicationId: Id,
    interviewType: InterviewType,
    interviewDate: Time,
    durationMinutes: Option<int>,
    interviewerNames: Option<string>,
    platform: Option<string>,
    status: InterviewStatus,
    prepNotes: Option<string>,
    interviewNotes: Option<string>,
    questionsAsked: Option<string>,
    rating: Option<int>,
    followUpActions: Option<string>,
    createdAt: Time)

  datatype Resource = Resource(
    id: Id,
    userId: UserId,
    title: string,
    url: Option<string>,
    category: ResourceCategory,
    notes: Option<string>,
    isReviewed: Option<bool>,
    linkedApplicationId: Option<Id>,
    createdAt: Time)

  datatype Question = Question(
    id: Id,
    userId: UserId,
    questionText: string,
    answerText: Option<string>,
    questionType: QuestionType,
    isFavorite: Option<bool>,
    tags: Option<seq<string>>,
    createdAt: Time)

  /** The keys the dashboards tally rows by. */
  function ApplicationStatusOf(a: Application): ApplicationStatus { a.status }
  function InterviewTypeOf(i: Interview): InterviewType { i.interviewType }

  // ---------------------------------------------------------------- inserts

  /**
   * What an application insert accepts: every column but `id`, `userId`,
   * `createdAt` and `updatedAt`. A column with a default is optional:
   * `status` absent means "applied"; `isRemote` absent means false, while
   * an explicit null stores NULL.
   */
  datatype InsertApplication = InsertApplication(
    companyName: string,
    positionTitle: string,
    jobUrl: Option<string>,
    logoUrl: Option<string>,
    status: Option<ApplicationStatus>,
    salaryMin: Option<int>,
    salaryMax: Option<int>,
    location: Option<string>,
    isRemote: Option<Option<bool>>,
    applicationDate: Time,
    notes: Option<string>)

  /** An interview insert keeps `applicationId` and omits only `id` and `createdAt`. */
  datatype InsertInterview = InsertInterview(
    applicationId: Id,
    interviewType: InterviewType,
    interviewDate: Time,
    durationMinutes: Option<int>,
    interviewerNames: Option<string>,
    platform: Option<string>,
    status: Option<InterviewStatus>,
    prepNotes: Option<string>,
    interviewNotes: Option<string>,
    questionsAsked: Option<string>,
    rating: Option<int>,
    followUpActions: Option<string>)

  datatype InsertResource = InsertResource(
    title: string,
    url: Option<string>,
    category: ResourceCategory,
    notes: Option<string>,
    isReviewed: Option<Option<bool>>,
    linkedApplicationId: Option<Id>)

  datatype InsertQuestion = InsertQuestion(
    questionText: string,
    answerText: Option<string>,
    questionType: QuestionType,
    isFavorite: Option<Option<bool>>,
    tags: Option<seq<string>>)

  /** The row an application insert produces: the owner is the caller, never the payload. */
  function NewApplication(id: Id, userId: UserId, ins: InsertApplication, now: Time): (a: Application)
    ensures a.id == id && a.userId == userId && a.createdAt == now && a.updatedAt == now
    ensures a.status == if ins.status.Some? then ins.status.value else Applied
    ensures a.isRemote == if ins.isRemote.Some? then ins.isRemote.value else Some(false)
  {
    Application(id, userId, ins.companyName, ins.positionTitle, ins.jobUrl, ins.logoUrl,
                ins.status.GetOr(Applied), ins.salaryMin, ins.salaryMax, ins.location,
                ins.isRemote.GetOr(Some(false)), ins.applicationDate, ins.notes, now, now)
  }

  function NewInterview(id: Id, ins: InsertInterview, now: Time): (i: Interview)
    ensures i.id == id && i.applicationId == ins.applicationId && i.createdAt == now
    ensures i.status == if ins.status.Some? then ins.status.value else Scheduled
  {
    Interview(id, ins.applicationId, ins.interviewType, ins.interviewDate, ins.durationMinutes,
              ins.interviewerNames, ins.platform, ins.status.GetOr(Scheduled), ins.prepNotes,
              ins.interviewNotes, ins.questionsAsked, ins.rating, ins.followUpActions, now)
  }

  function NewResource(id: Id, userId: UserId, ins: InsertResource, now: Time): (r: Resource)
    ensures r.id == id && r.userId == userId && r.createdAt == now
    ensures r.isReviewed == if ins.isReviewed.Some? then ins.isReviewed.value else Some(false)
  {
    Resource(id, userId, ins.title, ins.url, ins.category, ins.notes,
             ins.isReviewed.GetOr(Some(false)), ins.linkedApplicationId, now)
  }

  function NewQuestion(id: Id, userId: UserId, ins: InsertQuestion, now: Time): (q: Question)
    ensures q.id == id && q.userId == userId && q.createdAt == now
    ensures q.isFavorite == if ins.isFavorite.Some? then ins.isFavorite.value else Some(false)
  {
    Question(id, userId, ins.questionText, ins.answerText, ins.questionType,
             ins.isFavorite.GetOr(Some(false)), ins.tags, now)
  }

  // ---------------------------------------------------------------- column lists

  const ApplicationColumns: seq<string> :=
    ["id", "userId", "companyName", "positionTitle", "jobUrl", "logoUrl", "status", "salaryMin",
     "salaryMax", "location", "isRemote", "applicationDate", "notes", "createdAt", "updatedAt"]
  const InterviewColumns: seq<string> :=
    ["id", "applicationId", "interviewType", "interviewDate", "durationMinutes", "interviewerNames",
     "platform", "status", "prepNotes", "interviewNotes", "questionsAsked", "rating",
     "followUpActions", "createdAt"]
  const ResourceColumns: seq<string> :=
    ["id", "userId", "title", "url", "category", "notes", "isReviewed", "linkedApplicationId", "createdAt"]
  const QuestionColumns: seq<string> :=
    ["id", "userId", "questionText", "answerText", "questionType", "isFavorite", "tags", "createdAt"]

  /** The fields an insert (and so a partial update) may carry. */
  const ApplicationInsertFields: seq<string> :=
    ["companyName", "positionTitle", "jobUrl", "logoUrl", "status", "salaryMin",
     "salaryMax", "location", "isRemote", "applicationDate", "notes"]
  const InterviewInsertFields: seq<string> :=
    ["applicationId", "interviewType", "interviewDate", "durationMinutes",
     "interviewerNames", "platform", "status", "prepNotes", "interviewNotes",
     "questionsAsked", "rating", "followUpActions"]
  const ResourceInsertFields: seq<string> :=
    ["title", "url", "category", "notes", "isReviewed", "linkedApplicationId"]
  const QuestionInsertFields: seq<string> :=
    ["questionText", "answerText", "questionType", "isFavorite", "tags"]

  /**
   * The omission rules: applications, resources and questions drop `id`,
   * `userId` and `createdAt` (applications also `updatedAt`); interviews,
   * which have no `userId` column, drop only `id` and `createdAt`.
   */
  lemma InsertShapesOmit()
    ensures ApplicationColumns == ["id", "userId"] + ApplicationInsertFields + ["createdAt", "updatedAt"]
    ensures InterviewColumns == ["id"] + InterviewInsertFields + ["createdAt"]
    ensures ResourceColumns == ["id", "userId"] + ResourceInsertFields + ["createdAt"]
    ensures QuestionColumns == ["id", "userId"] + QuestionInsertFields + ["createdAt"]
    ensures "userId" !in InterviewColumns && "applicationId" in InterviewInsertFields
  {
  }

  // ---------------------------------------------------------------- partial updates

  datatype ApplicationPatch = ApplicationPatch(
    companyName: Option<string>,
    positionTitle: Option<string>,
    jobUrl: Option<Option<string>>,
    logoUrl: Option<Option<string>>,
    status: Option<ApplicationStatus>,
    salaryMin: Option<Option<int>>,
    salaryMax: Option<Option<int>>,
    location: Option<Option<string>>,
    isRemote: Option<Option<bool>>,
    applicationDate: Option<Time>,
    notes: Option<Option<string>>)

  const EmptyApplicationPatch := ApplicationPatch(None, None, None, None, None, None, None, None, None, None, None)

  datatype InterviewPatch = InterviewPatch(
    applicationId: Option<Id>,
    interviewType: Option<InterviewType>,
    interviewDate: Option<Time>,
    durationMinutes: Option<Option<int>>,
    interviewerNames: Option<Option<string>>,
    platform: Option<Option<string>>,
    status: Option<InterviewStatus>,
    prepNotes: Option<Option<string>>,
    interviewNotes: Option<Option<string>>,
    questionsAsked: Option<Option<string>>,
    rating: Option<Option<int>>,
    followUpActions: Option<Option<string>>)

  const EmptyInterviewPatch := InterviewPatch(None, None, None, None, None, None, None, None, None, None, None, None)

  datatype ResourcePatch = ResourcePatch(
    title: Option<string>,
    url: Option<Option<string>>,
    category: Option<ResourceCategory>,
    notes: Option<Option<string>>,
    isReviewed: Option<Option<bool>>,
    linkedApplicationId: Option<Option<Id>>)

  const EmptyResourcePatch := ResourcePatch(None, None, None, None, None, None)

  datatype QuestionPatch = QuestionPatch(
    questionText: Option<string>,
    answerText: Option<Option<string>>,
    questionType: Option<QuestionType>,
    isFavorite: Option<Option<bool>>,
    tags: Option<Option<seq<string>>>)

  const EmptyQuestionPatch := QuestionPatch(None, None, None, None, None)

  /** An application update overwrites the supplied fields and always refreshes `updatedAt`. */
  function ApplyApplicationPatch(a: Application, p: ApplicationPatch, now: Time): (r: Application)
    ensures r.id == a.id && r.userId == a.userId && r.createdAt == a.createdAt && r.updatedAt == now
  {
    Application(a.id, a.userId,
      p.companyName.GetOr(a.companyName), p.positionTitle.GetOr(a.positionTitle),
      p.jobUrl.GetOr(a.jobUrl), p.logoUrl.GetOr(a.logoUrl), p.status.GetOr(a.status),
      p.salaryMin.GetOr(a.salaryMin), p.salaryMax.GetOr(a.salaryMax),
      p.location.GetOr(a.location), p.isRemote.GetOr(a.isRemote),
      p.applicationDate.GetOr(a.applicationDate), p.notes.GetOr(a.notes),
      a.createdAt, now)
  }

  /** Interview, resource and question updates touch no timestamp. */
  function ApplyInterviewPatch(i: Interview, p: InterviewPatch): (r: Interview)
    ensures r.id == i.id && r.createdAt == i.createdAt
  {
    Interview(i.id, p.applicationId.GetOr(i.applicationId), p.interviewType.GetOr(i.interviewType),
      p.interviewDate.GetOr(i.interviewDate), p.durationMinutes.GetOr(i.durationMinutes),
      p.interviewerNames.GetOr(i.interviewerNames), p.platform.GetOr(i.platform),
      p.status.GetOr(i.status), p.prepNotes.GetOr(i.prepNotes),
      p.interviewNotes.GetOr(i.interviewNotes), p.questionsAsked.GetOr(i.questionsAsked),
      p.rating.GetOr(i.rating), p.followUpActions.GetOr(i.followUpActions), i.createdAt)
  }

  function ApplyResourcePatch(r: Resource, p: ResourcePatch): (r': Resource)
    ensures r'.id == r.id && r'.userId == r.userId && r'.createdAt == r.createdAt
  {
    Resource(r.id, r.userId, p.title.GetOr(r.title), p.url.GetOr(r.url),
      p.category.GetOr(r.category), p.notes.GetOr(r.notes), p.isReviewed.GetOr(r.isReviewed),
      p.linkedApplicationId.GetOr(r.linkedApplicationId), r.createdAt)
  }

  function ApplyQuestionPatch(q: Question, p: QuestionPatch): (r: Question)
    ensures r.id == q.id && r.userId == q.userId && r.createdAt == q.createdAt
  {
    Question(q.id, q.userId, p.questionText.GetOr(q.questionText), p.answerText.GetOr(q.answerText),
      p.questionType.GetOr(q.questionType), p.isFavorite.GetOr(q.isFavorite),
      p.tags.GetOr(q.tags), q.createdAt)
  }

  /**
   * An empty update changes nothing but an application's `updatedAt`; a
   * field the update leaves out keeps its value.
   */
  lemma EmptyPatchesChangeNothing(a: Application, i: Interview, r: Resource, q: Question, now: Time)
    ensures ApplyApplicationPatch(a, EmptyApplicationPatch, now) == a.(updatedAt := now)
    ensures ApplyInterviewPatch(i, EmptyInterviewPatch) == i
    ensures ApplyResourcePatch(r, EmptyResourcePatch) == r
    ensures ApplyQuestionPatch(q, EmptyQuestionPatch) == q
  {
  }

  // ---------------------------------------------------------------- what an update does, field by field

  /**
   * `.set(updates)`: a field the update names takes the update's value (a
   * null clears it), and a field it leaves out keeps the stored value.
   */
  lemma ApplicationPatchSetsNamedFields(a: Application, p: ApplicationPatch, now: Time)
    ensures var n := ApplyApplicationPatch(a, p, now);
      && (p.companyName.Some? ==> n.companyName == p.companyName.value)
      && (p.companyName.None? ==> n.companyName == a.companyName)
      && (p.positionTitle.Some? ==> n.positionTitle == p.positionTitle.value)
      && (p.positionTitle.None? ==> n.positionTitle == a.positionTitle)
      && (p.jobUrl.Some? ==> n.jobUrl == p.jobUrl.value)
      && (p.jobUrl.None? ==> n.jobUrl == a.jobUrl)
      && (p.logoUrl.Some? ==> n.logoUrl == p.logoUrl.value)
      && (p.logoUrl.None? ==> n.logoUrl == a.logoUrl)
      && (p.status.Some? ==> n.status == p.status.value)
      && (p.status.None? ==> n.status == a.status)
      && (p.salaryMin.Some? ==> n.salaryMin == p.salaryMin.value)
      && (p.salaryMin.None? ==> n.salaryMin == a.salaryMin)
      && (p.salaryMax.Some? ==> n.salaryMax == p.salaryMax.value)
      && (p.salaryMax.None? ==> n.salaryMax == a.salaryMax)
      && (p.location.Some? ==> n.location == p.location.value)
      && (p.location.None? ==> n.location == a.location)
      && (p.isRemote.Some? ==> n.isRemote == p.isRemote.value)
      && (p.isRemote.None? ==> n.isRemote == a.isRemote)
      && (p.applicationDate.Some? ==> n.applicationDate == p.applicationDate.value)
      && (p.applicationDate.None? ==> n.applicationDate == a.applicationDate)
      && (p.notes.Some? ==> n.notes == p.notes.value)
      && (p.notes.None? ==> n.notes == a.notes)
  {
  }

  lemma InterviewPatchSetsNamedFields(i: Interview, p: InterviewPatch)
    ensures var n := ApplyInterviewPatch(i, p);
      && (p.applicationId.Some? ==> n.applicationId == p.applicationId.value)
      && (p.applicationId.None? ==> n.applicationId == i.applicationId)
      && (p.interviewType.Some? ==> n.interviewType == p.interviewType.value)
      && (p.interviewType.None? ==> n.interviewType == i.interviewType)
      && (p.interviewDate.Some? ==> n.interviewDate == p.interviewDate.value)
      && (p.interviewDate.None? ==> n.interviewDate == i.interviewDate)
      && (p.durationMinutes.Some? ==> n.durationMinutes == p.durationMinutes.value)
      && (p.durationMinutes.None? ==> n.durationMinutes == i.durationMinutes)
      && (p.interviewerNames.Some? ==> n.interviewerNames == p.interviewerNames.value)
      && (p.interviewerNames.None? ==> n.interviewerNames == i.interviewerNames)
      && (p.platform.Some? ==> n.platform == p.platform.value)
      && (p.platform.None? ==> n.platform == i.platform)
      && (p.status.Some? ==> n.status == p.status.value)
      && (p.status.None? ==> n.status == i.status)
      && (p.prepNotes.Some? ==> n.prepNotes == p.prepNotes.value)
      && (p.prepNotes.None? ==> n.prepNotes == i.prepNotes)
      && (p.interviewNotes.Some? ==> n.interviewNotes == p.interviewNotes.value)
      && (p.interviewNotes.None? ==> n.interviewNotes == i.interviewNotes)
      && (p.questionsAsked.Some? ==> n.questionsAsked == p.questionsAsked.value)
      && (p.questionsAsked.None? ==> n.questionsAsked == i.questionsAsked)
      && (p.rating.Some? ==> n.rating == p.rating.value)
      && (p.rating.None? ==> n.rating == i.rating)
      && (p.followUpActions.Some? ==> n.followUpActions == p.followUpActions.value)
      && (p.followUpActions.None? ==> n.followUpActions == i.followUpActions)
  {
  }

  lemma ResourcePatchSetsNamedFields(r: Resource, p: ResourcePatch)
    ensures var n := ApplyResourcePatch(r, p);
      && (p.title.Some? ==> n.title == p.title.value)
      && (p.title.None? ==> n.title == r.title)
      && (p.url.Some? ==> n.url == p.url.value)
      && (p.url.None? ==> n.url == r.url)
      && (p.category.Some? ==> n.category == p.category.value)
      && (p.category.None? ==> n.category == r.category)
      && (p.notes.Some? ==> n.notes == p.notes.value)
      && (p.notes.None? ==> n.notes == r.notes)
      && (p.isReviewed.Some? ==> n.isReviewed == p.isReviewed.value)
      && (p.isReviewed.None? ==> n.isReviewed == r.isReviewed)
      && (p.linkedApplicationId.Some? ==> n.linkedApplicationId == p.linkedApplicationId.value)
      && (p.linkedApplicationId.None? ==> n.linkedApplicationId == r.linkedApplicationId)
  {
  }

  lemma QuestionPatchSetsNamedFields(q: Question, p: QuestionPatch)
    ensures var n := ApplyQuestionPatch(q, p);
      && (p.questionText.Some? ==> n.questionText == p.questionText.value)
      && (p.questionText.None? ==> n.questionText == q.questionText)
      && (p.answerText.Some? ==> n.answerText == p.answerText.value)
      && (p.answerText.None? ==> n.answerText == q.answerText)
      && (p.questionType.Some? ==> n.questionType == p.questionType.value)
      && (p.questionType.None? ==> n.questionType == q.questionType)
      && (p.isFavorite.Some? ==> n.isFavorite == p.isFavorite.value)
      && (p.isFavorite.None? ==> n.isFavorite == q.isFavorite)
      && (p.tags.Some? ==> n.tags == p.tags.value)
      && (p.tags.None? ==> n.tags == q.tags)
  {
  }

  /** Writing the same update twice is writing it once (an application's `updatedAt` is the later time). */
  lemma PatchesAreIdempotent(a: Application, ap: ApplicationPatch, t1: Time, t2: Time,
                             i: Interview, ip: InterviewPatch, r: Resource, rp: ResourcePatch,
                             q: Question, qp: QuestionPatch)
    ensures ApplyApplicationPatch(ApplyApplicationPatch(a, ap, t1), ap, t2) == ApplyApplicationPatch(a, ap, t2)
    ensures ApplyInterviewPatch(ApplyInterviewPatch(i, ip), ip) == ApplyInterviewPatch(i, ip)
    ensures ApplyResourcePatch(ApplyResourcePatch(r, rp), rp) == ApplyResourcePatch(r, rp)
    ensures ApplyQuestionPatch(ApplyQuestionPatch(q, qp), qp) == ApplyQuestionPatch(q, qp)
  {
  }
}
