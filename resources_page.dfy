/**
 * The resources page's category tabs.
 */
module ResourcesPage {
  import opened Wrappers
  import opened Seqs
  import opened Schema

  function InCategory(tab: string): Resource -> bool {
    (r: Resource) => ResourceCategoryName(r.category) == tab
  }

  /** `filteredResources`: the whole list on "all", else the resources of the tab's category. */
  function FilteredResources(resources: seq<Resource>, tab: string): (r: seq<Resource>)
    ensures tab == "all" ==> r == resources
    ensures tab != "all" ==> forall x :: x in r <==> x in resources && ResourceCategoryName(x.category) == tab
    ensures |r| <= |resources| && IsSubsequence(r, resources)
  {
    FilterIsSubsequence(resources, InCategory(tab));
    if tab == "all" then
      FilterKeepsAll(resources, (x: Resource) => true);
      FilterIsSubsequence(resources, (x: Resource) => true);
      resources
    else
      Filter(resources, InCategory(tab))
  }

  /** Whether a resource was reviewed, and what it links to, do not decide its tab. */
  lemma ReviewAndLinkDoNotMatter(r: Resource, isReviewed: Option<bool>, linked: Option<Id>, tab: string)
    ensures InCategory(tab)(r.(isReviewed := isReviewed, linkedApplicationId := linked)) == InCategory(tab)(r)
  {
  }
}
