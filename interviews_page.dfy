/**
 * The interviews page's two tabs, upcoming and completed.
 */
module InterviewsPage {
  import opened Seqs
  import opened Schema

  /** Scheduled and strictly later than now. */
  predicate IsUpcoming(i: Interview, now: Time) {
    i.status == Scheduled && i.interviewDate > now
  }

  function UpcomingAt(now: Time): Interview -> bool {
    (i: Interview) => IsUpcoming(i, now)
  }

  function IsCompleted(): Interview -> bool {
    (i: Interview) => i.status == Completed
  }

  function UpcomingTab(interviews: seq<Interview>, now: Time): (r: seq<Interview>)
    ensures forall i :: i in r <==> i in interviews && i.status == Scheduled && i.interviewDate > now
    ensures IsSubsequence(r, interviews)
  {
    FilterIsSubsequence(interviews, UpcomingAt(now));
    Filter(interviews, UpcomingAt(now))
  }

  function CompletedTab(interviews: seq<Interview>): (r: seq<Interview>)
    ensures forall i :: i in r <==> i in interviews && i.status == Completed
    ensures IsSubsequence(r, interviews)
  {
    FilterIsSubsequence(interviews, IsCompleted());
    Filter(interviews, IsCompleted())
  }

  /**
   * No interview is on both tabs, a cancelled one is on neither, and the
   * two tab counts together never exceed the list.
   */
  lemma TabsAreDisjoint(interviews: seq<Interview>, now: Time)
    ensures forall i: Interview :: !(i in UpcomingTab(interviews, now) && i in CompletedTab(interviews))
    ensures forall i: Interview :: i.status == Cancelled ==> i !in UpcomingTab(interviews, now) && i !in CompletedTab(interviews)
    ensures |UpcomingTab(interviews, now)| + |CompletedTab(interviews)| <= |interviews|
  {
    DisjointFiltersFit(interviews, UpcomingAt(now), IsCompleted());
  }

  lemma {:induction false} DisjointFiltersFit(s: seq<Interview>, p: Interview -> bool, q: Interview -> bool)
    requires forall x :: !(p(x) && q(x))
    ensures |Filter(s, p)| + |Filter(s, q)| <= |s|
    decreases |s|
  {
    if s != [] {
      DisjointFiltersFit(s[..|s| - 1], p, q);
    }
  }

  /**
   * The page is stricter than the store's upcoming query, which keeps an
   * interview at exactly `now`: such an interview is not on the tab.
   */
  lemma StricterThanTheStore(i: Interview, now: Time)
    ensures IsUpcoming(i, now) ==> i.status == Scheduled && i.interviewDate >= now
    ensures i.status == Scheduled && i.interviewDate == now ==> !IsUpcoming(i, now)
  {
  }
}
