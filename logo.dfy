/**
 * Company logos: the Clearbit logo URL for an application, from the host
 * of its job posting or, failing that, a domain guessed from the company
 * name.
 *
 * The URL parser is a parameter: `hostnameOf(url)` is the hostname
 * `new URL(url)` yields, or `None` when the constructor throws.
 */
module Logo {
  import opened Wrappers
  import opened Seqs
  import opened Text

  /** What a guessed domain's name part consists of: `[a-z0-9]`. */
  predicate IsStemChar(c: char) {
    IsAsciiLower(c) || IsDigit(c)
  }

  /** The class `[a-z0-9\s-]`. */
  predicate IsKept(c: char) {
    IsStemChar(c) || IsWhitespace(c) || c == '-'
  }

  predicate IsNotWhitespace(c: char) { !IsWhitespace(c) }
  predicate IsNotHyphen(c: char) { c != '-' }
  predicate IsKeptNotWhitespace(c: char) { IsKept(c) && IsNotWhitespace(c) }

  /**
   * `companyNameToDomain`: lower-case the name, delete everything outside
   * `[a-z0-9\s-]`, then the whitespace, then the hyphens, and append
   * ".com".
   */
  function CompanyNameToDomain(companyName: string): (domain: string)
    ensures |domain| >= 4 && domain[|domain| - 4..] == ".com"
    ensures forall i :: 0 <= i < |domain| - 4 ==> IsStemChar(domain[i])
  {
    var kept := Filter(Lower(companyName), IsKept);
    var noWhitespace := Filter(kept, IsNotWhitespace);
    var noHyphens := Filter(noWhitespace, IsNotHyphen);
    assert forall i :: 0 <= i < |noHyphens| ==> noHyphens[i] in noHyphens;
    noHyphens + ".com"
  }

  /**
   * The three deletions together keep exactly the name's ASCII letters and
   * digits, lower-cased: spacing, punctuation and case make no difference.
   */
  lemma DomainKeepsLettersAndDigits(companyName: string)
    ensures CompanyNameToDomain(companyName) == Filter(Lower(companyName), IsStemChar) + ".com"
  {
    var lower := Lower(companyName);
    FilterFilter(lower, IsKept, IsNotWhitespace, IsKeptNotWhitespace);
    FilterFilter(lower, IsKeptNotWhitespace, IsNotHyphen, IsStemChar);
  }

  /** A name that is already a lower-case stem is its own domain's name part. */
  lemma StemNameIsKept(companyName: string)
    requires forall i :: 0 <= i < |companyName| ==> IsStemChar(companyName[i])
    ensures CompanyNameToDomain(companyName) == companyName + ".com"
  {
    DomainKeepsLettersAndDigits(companyName);
    assert forall i :: 0 <= i < |companyName| ==> Lower(companyName)[i] == companyName[i];
    assert Lower(companyName) == companyName;
    FilterKeepsAll(companyName, IsStemChar);
  }

  /** `hostname.replace(/^www\./, '')`: one leading "www." goes. */
  function StripWww(hostname: string): string {
    if |hostname| >= 4 && hostname[..4] == "www." then hostname[4..] else hostname
  }

  lemma StripWwwOnce(host: string)
    ensures StripWww("www." + host) == host
    ensures StripWww("www.www." + host) == "www." + host
  {
  }

  /** `extractDomainFromUrl`: the host without a leading "www.", or `None` when the URL does not parse. */
  function ExtractDomainFromUrl(url: string, hostnameOf: string -> Option<string>): (r: Option<string>)
    ensures r.None? <==> hostnameOf(url).None?
    ensures r.Some? ==> hostnameOf(url).value == r.value || hostnameOf(url).value == "www." + r.value
  {
    match hostnameOf(url)
    case None => None
    case Some(hostname) =>
      assert |hostname| >= 4 && hostname[..4] == "www." ==> hostname == "www." + hostname[4..];
      Some(StripWww(hostname))
  }

  const ClearbitPrefix := "https://logo.clearbit.com/"
  const SizeSuffix := "?size=128"

  /**
   * `getCompanyLogoUrl`: the posting's domain when there is a non-empty
   * job URL whose host gives a non-empty domain, the name's domain
   * otherwise.
   */
  function GetCompanyLogoUrl(jobUrl: Option<string>, companyName: string, hostnameOf: string -> Option<string>)
    : (r: string)
    ensures jobUrl.None? || jobUrl.value == "" ==>
      r == ClearbitPrefix + CompanyNameToDomain(companyName) + SizeSuffix
    ensures jobUrl.Some? && jobUrl.value != "" ==>
      var extracted := ExtractDomainFromUrl(jobUrl.value, hostnameOf);
      r == ClearbitPrefix + (if extracted.Some? && extracted.value != "" then extracted.value
                              else CompanyNameToDomain(companyName)) + SizeSuffix
  {
    var domain :=
      if jobUrl.Some? && jobUrl.value != "" then
        match ExtractDomainFromUrl(jobUrl.value, hostnameOf)
        case Some(extracted) => if extracted != "" then extracted else CompanyNameToDomain(companyName)
        case None => CompanyNameToDomain(companyName)
      else
        CompanyNameToDomain(companyName);
    ClearbitPrefix + domain + SizeSuffix
  }

  /**
   * Every logo URL is the Clearbit prefix, a domain and the size suffix,
   * and the domain is the name's guess whenever the posting's URL is
   * missing, empty or unparseable.
   */
  lemma LogoUrlShape(jobUrl: Option<string>, companyName: string, hostnameOf: string -> Option<string>)
    ensures var r := GetCompanyLogoUrl(jobUrl, companyName, hostnameOf);
      |r| >= |ClearbitPrefix| + |SizeSuffix| && r[..|ClearbitPrefix|] == ClearbitPrefix
      && r[|r| - |SizeSuffix|..] == SizeSuffix
    ensures (jobUrl.None? || jobUrl.value == "" || hostnameOf(jobUrl.value).None?) ==>
      GetCompanyLogoUrl(jobUrl, companyName, hostnameOf) == ClearbitPrefix + CompanyNameToDomain(companyName) + SizeSuffix
  {
  }
}
