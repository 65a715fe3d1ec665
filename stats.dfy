/**
 * The statistics page: the applications and interviews on or after a
 * cut-off, the per-status and per-type breakdowns, the outcome and
 * interview counts, the response-time samples and their average, and the
 * number of days the activity timeline shows.
 *
 * The cut-off and the current time are parameters (milliseconds); the
 * calendar arithmetic that derives the cut-off from the selected range is
 * not modelled.
 */
module Stats {
  import opened Wrappers
  import opened Seqs
  import opened Schema

  datatype TimeRange = OneDay | OneWeek | OneMonth | ThreeMonths | AllTime

  // ---------------------------------------------------------------- the cut-off filter

  function AppliedSince(cutoff: Time): Application -> bool {
    (a: Application) => a.applicationDate >= cutoff
  }

  function ScheduledSince(cutoff: Time): Interview -> bool {
    (i: Interview) => i.interviewDate >= cutoff
  }

  /** The applications dated on or after the cut-off, in their original order. */
  function ApplicationsSince(apps: seq<Application>, cutoff: Time): (r: seq<Application>)
    ensures forall a :: a in r <==> a in apps && a.applicationDate >= cutoff
    ensures IsSubsequence(r, apps)
  {
    FilterIsSubsequence(apps, AppliedSince(cutoff));
    Filter(apps, AppliedSince(cutoff))
  }

  /** The interviews dated on or after the cut-off, in their original order. */
  function InterviewsSince(interviews: seq<Interview>, cutoff: Time): (r: seq<Interview>)
    ensures forall i :: i in r <==> i in interviews && i.interviewDate >= cutoff
    ensures IsSubsequence(r, interviews)
  {
    FilterIsSubsequence(interviews, ScheduledSince(cutoff));
    Filter(interviews, ScheduledSince(cutoff))
  }

  /** A later cut-off keeps no more. */
  lemma LaterCutoffKeepsLess(apps: seq<Application>, early: Time, late: Time)
    requires early <= late
    ensures |ApplicationsSince(apps, late)| <= |ApplicationsSince(apps, early)|
  {
    FilterMonotone(apps, AppliedSince(late), AppliedSince(early));
  }

  // ---------------------------------------------------------------- breakdowns

  /**
   * `statusBreakdown`: each status that occurs maps to its number of
   * applications, a status that does not occur has no key, and the counts
   * add up to the number of applications.
   */
  method StatusBreakdown(apps: seq<Application>) returns (breakdown: map<ApplicationStatus, nat>)
    ensures forall s :: s in breakdown <==> exists i :: 0 <= i < |apps| && apps[i].status == s
    ensures forall s :: Get(breakdown, s) == CountKey(apps, ApplicationStatusOf, s)
    ensures forall s :: s in breakdown ==> breakdown[s] > 0
    ensures SumOver(AllApplicationStatuses, breakdown) == |apps|
  {
    breakdown := CountBy(apps, ApplicationStatusOf);
    forall s ensures (s in breakdown <==> exists i :: 0 <= i < |apps| && apps[i].status == s)
      && Get(breakdown, s) == CountKey(apps, ApplicationStatusOf, s)
    {
      TallyCounts(apps, ApplicationStatusOf, s);
    }
    TallyPositive(apps, ApplicationStatusOf);
    ApplicationStatusesAreExact();
    TallySum(apps, ApplicationStatusOf, AllApplicationStatuses);
  }

  /** `interviewTypeBreakdown`, likewise over the interview types. */
  method InterviewTypeBreakdown(interviews: seq<Interview>) returns (breakdown: map<InterviewType, nat>)
    ensures forall t :: t in breakdown <==> exists i :: 0 <= i < |interviews| && interviews[i].interviewType == t
    ensures forall t :: Get(breakdown, t) == CountKey(interviews, InterviewTypeOf, t)
    ensures forall t :: t in breakdown ==> breakdown[t] > 0
    ensures SumOver(AllInterviewTypes, breakdown) == |interviews|
  {
    breakdown := CountBy(interviews, InterviewTypeOf);
    forall t ensures (t in breakdown <==> exists i :: 0 <= i < |interviews| && interviews[i].interviewType == t)
      && Get(breakdown, t) == CountKey(interviews, InterviewTypeOf, t)
    {
      TallyCounts(interviews, InterviewTypeOf, t);
    }
    TallyPositive(interviews, InterviewTypeOf);
    InterviewTypesAreExact();
    TallySum(interviews, InterviewTypeOf, AllInterviewTypes);
  }

  // ---------------------------------------------------------------- outcome counts

  function HasStatus(s: ApplicationStatus): Application -> bool {
    (a: Application) => a.status == s
  }

  /** Not offered, rejected or withdrawn. */
  predicate InProgress(a: Application) {
    a.status !in [Offer, Rejected, Withdrawn]
  }

  function OffersReceived(apps: seq<Application>): nat { |Filter(apps, HasStatus(Offer))| }
  function Rejections(apps: seq<Application>): nat { |Filter(apps, HasStatus(Rejected))| }
  /** The outcome chart's withdrawn slice, which the page filters inline. */
  function WithdrawnCount(apps: seq<Application>): nat { |Filter(apps, HasStatus(Withdrawn))| }
  function InProgressCount(apps: seq<Application>): nat { |Filter(apps, InProgress)| }

  /** The outcome chart's four slices partition the applications. */
  lemma {:induction false} OutcomePartition(apps: seq<Application>)
    ensures OffersReceived(apps) + Rejections(apps) + WithdrawnCount(apps) + InProgressCount(apps) == |apps|
    decreases |apps|
  {
    if apps != [] {
      OutcomePartition(apps[..|apps| - 1]);
    }
  }

  function HasInterviewStatus(s: InterviewStatus): Interview -> bool {
    (i: Interview) => i.status == s
  }

  function CompletedInterviews(interviews: seq<Interview>): nat { |Filter(interviews, HasInterviewStatus(Completed))| }
  function UpcomingInterviews(interviews: seq<Interview>): nat { |Filter(interviews, HasInterviewStatus(Scheduled))| }
  /** The page shows no cancelled count: this one names what the two shown counts leave out. */
  function CancelledInterviews(interviews: seq<Interview>): nat { |Filter(interviews, HasInterviewStatus(Cancelled))| }

  /**
   * "completed" and "upcoming" count disjoint interviews; what is missing
   * from the total is exactly the cancelled ones.
   */
  lemma {:induction false} InterviewCountsPartition(interviews: seq<Interview>)
    ensures CompletedInterviews(interviews) + UpcomingInterviews(interviews) + CancelledInterviews(interviews) == |interviews|
    ensures CompletedInterviews(interviews) + UpcomingInterviews(interviews) <= |interviews|
    decreases |interviews|
  {
    if interviews != [] {
      InterviewCountsPartition(interviews[..|interviews| - 1]);
    }
  }

  // ---------------------------------------------------------------- response times

  function ForApplication(id: Id): Interview -> bool {
    (i: Interview) => i.applicationId == id
  }

  /** The first element after sorting by date: an earliest interview. */
  function Earliest(interviews: seq<Interview>): (r: Interview)
    requires |interviews| > 0
    ensures r in interviews
    ensures forall i :: i in interviews ==> r.interviewDate <= i.interviewDate
    decreases |interviews|
  {
    if |interviews| == 1 then interviews[0]
    else
      var rest := Earliest(interviews[1..]);
      assert forall i :: i in interviews ==> i == interviews[0] || i in interviews[1..];
      if interviews[0].interviewDate <= rest.interviewDate then interviews[0] else rest
  }

  /**
   * Whole days, rounded down, from the application to its first interview;
   * `None` when the application has no interview.
   */
  function ResponseDays(app: Application, interviews: seq<Interview>): Option<int> {
    var appInterviews := Filter(interviews, ForApplication(app.id));
    if |appInterviews| > 0 then
      Some((Earliest(appInterviews).interviewDate - app.applicationDate) / DayMillis)
    else
      None
  }

  /**
   * An application has response days exactly when it has an interview, and
   * they are the whole days from its date to its earliest interview.
   */
  lemma ResponseDaysOfFirstInterview(app: Application, interviews: seq<Interview>)
    ensures ResponseDays(app, interviews).Some? <==> exists i :: i in interviews && i.applicationId == app.id
    ensures ResponseDays(app, interviews).Some? ==> exists first :: (
      && first in interviews && first.applicationId == app.id
      && (forall i :: i in interviews && i.applicationId == app.id ==> first.interviewDate <= i.interviewDate)
      && var days := ResponseDays(app, interviews).value;
         DayMillis * days <= first.interviewDate - app.applicationDate < DayMillis * (days + 1))
  {
    var appInterviews := Filter(interviews, ForApplication(app.id));
    assert forall i :: i in interviews && i.applicationId == app.id ==> i in appInterviews;
    if |appInterviews| > 0 {
      assert appInterviews[0] in appInterviews;
      var first := Earliest(appInterviews);
      assert first in interviews && first.applicationId == app.id;
    }
  }

  /** The sample one application contributes: its response days, when there are some and they are not negative. */
  function Sample(app: Application, interviews: seq<Interview>): seq<int> {
    match ResponseDays(app, interviews)
    case Some(days) => if days >= 0 then [days] else []
    case None => []
  }

  /** What one application contributes, as the page computes it. */
  lemma SampleOfApplication(app: Application, interviews: seq<Interview>)
    ensures var appInterviews := Filter(interviews, ForApplication(app.id));
      Sample(app, interviews) ==
        if |appInterviews| > 0 && (Earliest(appInterviews).interviewDate - app.applicationDate) / DayMillis >= 0
        then [(Earliest(appInterviews).interviewDate - app.applicationDate) / DayMillis]
        else []
  {
    var appInterviews := Filter(interviews, ForApplication(app.id));
    if |appInterviews| > 0 {
      var days := (Earliest(appInterviews).interviewDate - app.applicationDate) / DayMillis;
      assert ResponseDays(app, interviews) == Some(days);
      if days >= 0 {
        assert Sample(app, interviews) == [days];
      } else {
        assert Sample(app, interviews) == [];
      }
    } else {
      assert ResponseDays(app, interviews) == None;
      assert Sample(app, interviews) == [];
    }
  }

  /** The samples, application by application. */
  function Samples(apps: seq<Application>, interviews: seq<Interview>): seq<int>
    decreases |apps|
  {
    if apps == [] then []
    else Samples(apps[..|apps| - 1], interviews) + Sample(apps[|apps| - 1], interviews)
  }

  function HasSample(interviews: seq<Interview>): Application -> bool {
    (a: Application) => Sample(a, interviews) != []
  }

  /**
   * One sample per application that has an interview on the day of the
   * application or later; every sample is such an application's response
   * time, and none is negative.
   */
  lemma {:induction false} SamplesAreResponseTimes(apps: seq<Application>, interviews: seq<Interview>)
    ensures |Samples(apps, interviews)| == |Filter(apps, HasSample(interviews))| <= |apps|
    ensures forall d :: d in Samples(apps, interviews) ==>
      d >= 0 && exists a :: a in apps && ResponseDays(a, interviews) == Some(d)
    decreases |apps|
  {
    if apps != [] {
      var init := apps[..|apps| - 1];
      var last := apps[|apps| - 1];
      SamplesAreResponseTimes(init, interviews);
      forall d | d in Samples(apps, interviews)
        ensures d >= 0 && exists a :: a in apps && ResponseDays(a, interviews) == Some(d)
      {
        if d in Samples(init, interviews) {
          var a :| a in init && ResponseDays(a, interviews) == Some(d);
          assert a in apps;
        } else {
          assert d in Sample(last, interviews);
          assert last in apps;
        }
      }
    }
  }

  lemma SamplesOfPrefix(apps: seq<Application>, i: int, interviews: seq<Interview>)
    requires 0 <= i < |apps|
    ensures Samples(apps[..i + 1], interviews) == Samples(apps[..i], interviews) + Sample(apps[i], interviews)
  {
    assert apps[..i + 1][..i] == apps[..i] && apps[..i + 1][i] == apps[i];
  }

  /** The `forEach` that collects the samples. */
  method ResponseTimes(apps: seq<Application>, interviews: seq<Interview>) returns (responseTimes: seq<int>)
    ensures responseTimes == Samples(apps, interviews)
    ensures |responseTimes| <= |apps|
    ensures forall k :: 0 <= k < |responseTimes| ==> responseTimes[k] >= 0
  {
    responseTimes := [];
    for i := 0 to |apps|
      invariant responseTimes == Samples(apps[..i], interviews)
    {
      SamplesOfPrefix(apps, i, interviews);
      ghost var before := responseTimes;
      var app := apps[i];
      SampleOfApplication(app, interviews);
      var appInterviews := Filter(interviews, ForApplication(app.id));
      if |appInterviews| > 0 {
        var firstInterview := Earliest(appInterviews);
        var daysDiff := (firstInterview.interviewDate - app.applicationDate) / DayMillis;
        if daysDiff >= 0 {
          assert Sample(app, interviews) == [daysDiff];
          responseTimes := responseTimes + [daysDiff];
        } else {
          assert Sample(app, interviews) == [];
        }
      } else {
        assert Sample(app, interviews) == [];
      }
      assert responseTimes == before + Sample(app, interviews);
    }
    assert apps[..|apps|] == apps;
    SamplesBounded(apps, interviews);
  }

  /** At most one sample per application, and none is negative. */
  lemma SamplesBounded(apps: seq<Application>, interviews: seq<Interview>)
    ensures |Samples(apps, interviews)| <= |apps|
    ensures forall k :: 0 <= k < |Samples(apps, interviews)| ==> Samples(apps, interviews)[k] >= 0
  {
    SamplesAreResponseTimes(apps, interviews);
    var s := Samples(apps, interviews);
    forall k | 0 <= k < |s|
      ensures s[k] >= 0
    {
      assert s[k] in s;
    }
  }

  function Sum(xs: seq<int>): int
    decreases |xs|
  {
    if xs == [] then 0 else Sum(xs[..|xs| - 1]) + xs[|xs| - 1]
  }

  /**
   * `Math.round(sum / n)`, or 0 without samples. For integers, rounding
   * half up is `floor((2 * sum + n) / (2 * n))`.
   */
  function AverageResponseTime(samples: seq<int>): (r: int)
    ensures samples == [] ==> r == 0
    ensures samples != [] ==> |samples| * (2 * r - 1) <= 2 * Sum(samples) < |samples| * (2 * r + 1)
  {
    if samples == [] then 0
    else
      var n, s := |samples|, Sum(samples);
      var r := (2 * s + n) / (2 * n);
      assert (2 * n) * r <= 2 * s + n < (2 * n) * r + 2 * n;
      assert n * (2 * r - 1) == (2 * n) * r - n && n * (2 * r + 1) == (2 * n) * r + n;
      r
  }

  lemma {:induction false} SumBounds(xs: seq<int>, lo: int, hi: int)
    requires forall k :: 0 <= k < |xs| ==> lo <= xs[k] <= hi
    ensures |xs| * lo <= Sum(xs) <= |xs| * hi
    decreases |xs|
  {
    if xs != [] {
      SumBounds(xs[..|xs| - 1], lo, hi);
      assert xs[|xs| - 1] == xs[|xs| - 1];
    }
  }

  lemma MulMonotone(b: int, x: int, y: int)
    requires b >= 0 && x <= y
    ensures b * x <= b * y
  {
    assert b * y == b * x + b * (y - x);
  }

  lemma MulTwice(b: int, x: int)
    ensures b * (2 * x) == 2 * (b * x) && b * (2 * x + 1) == 2 * (b * x) + b
  {
  }

  /** The average lies between the smallest and the largest sample. */
  lemma AverageWithinBounds(samples: seq<int>, lo: int, hi: int)
    requires samples != []
    requires forall k :: 0 <= k < |samples| ==> lo <= samples[k] <= hi
    ensures lo <= AverageResponseTime(samples) <= hi
  {
    var n, s, r := |samples|, Sum(samples), AverageResponseTime(samples);
    SumBounds(samples, lo, hi);
    if r < lo {
      MulMonotone(n, 2 * r + 1, 2 * lo);
      MulTwice(n, lo);
    }
    if r > hi {
      MulMonotone(n, 2 * hi + 1, 2 * r - 1);
      MulTwice(n, hi);
    }
  }

  // ---------------------------------------------------------------- the timeline

  function EarliestApplicationDate(apps: seq<Application>): (d: Time)
    requires apps != []
    ensures exists a :: a in apps && a.applicationDate == d
    ensures forall a :: a in apps ==> d <= a.applicationDate
    decreases |apps|
  {
    if |apps| == 1 then apps[0].applicationDate
    else
      var rest := EarliestApplicationDate(apps[1..]);
      assert forall a :: a in apps ==> a == apps[0] || a in apps[1..];
      assert apps[1..][0] in apps;
      if apps[0].applicationDate <= rest then apps[0].applicationDate else rest
  }

  /** `Math.ceil(a / b)` for a positive `b`. */
  function CeilDiv(a: int, b: int): (q: int)
    requires b > 0
    ensures b * (q - 1) < a <= b * q
  {
    var f := (-a) / b;
    assert b * f <= -a < b * (f + 1);
    -f
  }

  /**
   * The number of days on the timeline: none without applications; 1, 7,
   * 30 or 90 for a bounded range; and for "all time" one per day from the
   * first application to today, which is none when every application lies
   * a day or more in the future.
   */
  function TimelineLength(range: TimeRange, apps: seq<Application>, now: Time): (n: nat)
    ensures apps == [] ==> n == 0
    ensures apps != [] && range == OneDay ==> n == 1
    ensures apps != [] && range == OneWeek ==> n == 7
    ensures apps != [] && range == OneMonth ==> n == 30
    ensures apps != [] && range == ThreeMonths ==> n == 90
    ensures apps != [] && range == AllTime ==>
      (n == 0 <==> forall a :: a in apps ==> a.applicationDate >= now + DayMillis)
    ensures apps != [] && range == AllTime && n > 0 ==>
      forall a :: a in apps ==> now - a.applicationDate <= DayMillis * (n - 1)
    ensures apps != [] && range == AllTime && n > 0 ==>
      DayMillis * (n - 2) < now - EarliestApplicationDate(apps) <= DayMillis * (n - 1)
  {
    if apps == [] then 0
    else match range
      case OneDay => 1
      case OneWeek => 7
      case OneMonth => 30
      case ThreeMonths => 90
      case AllTime =>
        var days := CeilDiv(now - EarliestApplicationDate(apps), DayMillis) + 1;
        if days > 0 then days else 0
  }
}
