/**
 * The applications page's list filter and its empty-state message.
 */
module ApplicationsPage {
  import opened Seqs
  import opened Text
  import opened Schema

  /** The search term occurs, ignoring case, in the company name or the position title. */
  predicate MatchesSearch(a: Application, searchTerm: string) {
    ContainsIgnoreCase(a.companyName, searchTerm) || ContainsIgnoreCase(a.positionTitle, searchTerm)
  }

  /** The status filter is "all" or names the application's status. */
  predicate MatchesStatus(a: Application, statusFilter: string) {
    statusFilter == "all" || ApplicationStatusName(a.status) == statusFilter
  }

  function Shown(searchTerm: string, statusFilter: string): Application -> bool {
    (a: Application) => MatchesSearch(a, searchTerm) && MatchesStatus(a, statusFilter)
  }

  /** `filteredApplications`: the applications both filters let through, in their original order. */
  function FilteredApplications(apps: seq<Application>, searchTerm: string, statusFilter: string)
    : (r: seq<Application>)
    ensures forall a :: a in r <==> a in apps && MatchesSearch(a, searchTerm) && MatchesStatus(a, statusFilter)
    ensures IsSubsequence(r, apps)
  {
    FilterIsSubsequence(apps, Shown(searchTerm, statusFilter));
    Filter(apps, Shown(searchTerm, statusFilter))
  }

  /** With an empty search and "all", every application is shown. */
  lemma NoFilterShowsAll(apps: seq<Application>)
    ensures FilteredApplications(apps, "", "all") == apps
  {
    forall i | 0 <= i < |apps| ensures Shown("", "all")(apps[i]) {
      EmptyIsContained(apps[i].companyName);
    }
    FilterKeepsAll(apps, Shown("", "all"));
  }

  const AdjustFilters := "Try adjusting your filters"
  const AddFirst := "Add your first application to get started"

  /** The text under "No applications found". */
  function EmptyStateMessage(searchTerm: string, statusFilter: string): (m: string)
    ensures m == AdjustFilters || m == AddFirst
  {
    if searchTerm != "" || statusFilter != "all" then AdjustFilters else AddFirst
  }

  /**
   * The message blames the filters exactly when one is set; when it
   * suggests adding a first application, the list really is empty.
   */
  lemma EmptyStateIsAccurate(apps: seq<Application>, searchTerm: string, statusFilter: string)
    ensures EmptyStateMessage(searchTerm, statusFilter) == AdjustFilters <==> searchTerm != "" || statusFilter != "all"
    ensures FilteredApplications(apps, searchTerm, statusFilter) == [] && EmptyStateMessage(searchTerm, statusFilter) == AddFirst
      ==> apps == []
  {
    if EmptyStateMessage(searchTerm, statusFilter) == AddFirst {
      NoFilterShowsAll(apps);
    }
  }
}
