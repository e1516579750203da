/** The company list page: loading the records, the Exchange and Sector
    option lists, the search-and-facet filter and the website display text. */
module CompanyList {
  import opened Wrappers
  import opened Sequences
  import opened Strings
  import opened Gviz

  /** The page after its fetch: the records, or the single failure state
      shown as "Failed to fetch data". */
  datatype ListOutcome = Listed(companies: seq<Record>) | Failed

  /** The list page's fetch-and-parse: any failure of the fetch, the parse or
      the table's shape leaves no records at all. */
  function LoadCompanies(response: Option<string>, parse: string -> Option<RawTable>): (o: ListOutcome)
    ensures o.Failed? <==> FetchTable(response, parse).None?
    ensures o.Listed? ==>
      var t := FetchTable(response, parse).value;
      && |o.companies| == |t.rows|
      && forall i :: 0 <= i < |t.rows| ==> IsRowRecord(t.labels, t.rows[i], o.companies[i])
  {
    match FetchTable(response, parse)
    case None => Failed
    case Some(t) => Listed(Project(t))
  }

  const ExchangeKey := "Exchange"
  const SectorKey := "Sector"

  /** `company[key] || ""`. */
  function FieldOrEmpty(company: Record, key: string): string {
    if key in company then company[key] else ""
  }

  /** `companies.map((company) => company[key] || "")`. */
  function FieldValues(companies: seq<Record>, key: string): (values: seq<string>)
    ensures |values| == |companies|
    ensures forall i :: 0 <= i < |companies| ==> values[i] == FieldOrEmpty(companies[i], key)
  {
    seq(|companies|, i requires 0 <= i < |companies| => FieldOrEmpty(companies[i], key))
  }

  /** `filter(Boolean)` on strings. */
  predicate NonEmpty(v: string) {
    v != ""
  }

  /** `[...new Set(FieldValues(companies, key))].filter(Boolean)`: the options
      the page computes for a facet (it never renders them). They are exactly the non-empty values the field
      takes in some record, each once, in order of first appearance. */
  function FacetOptions(companies: seq<Record>, key: string): (options: seq<string>)
    ensures NoDuplicates(options)
    ensures "" !in options
    ensures forall v :: v in options <==>
      v != "" && exists i :: 0 <= i < |companies| && key in companies[i] && companies[i][key] == v
    ensures forall i, j :: 0 <= i < j < |options| ==>
      IndexOf(FieldValues(companies, key), options[i]) < IndexOf(FieldValues(companies, key), options[j])
  {
    var values := FieldValues(companies, key);
    FacetOptionsOrdered(values);
    FacetOptionsMembers(companies, key);
    Filter(Distinct(values), NonEmpty)
  }

  lemma FacetOptionsOrdered(values: seq<string>)
    ensures NoDuplicates(Filter(Distinct(values), NonEmpty))
    ensures forall i, j :: 0 <= i < j < |Filter(Distinct(values), NonEmpty)| ==>
      IndexOf(values, Filter(Distinct(values), NonEmpty)[i]) < IndexOf(values, Filter(Distinct(values), NonEmpty)[j])
  {
    var distinct := Distinct(values);
    var options := Filter(distinct, NonEmpty);
    SubsequencePairwise(options, distinct, (x, y) => x != y);
    SubsequencePairwise(options, distinct, (x, y) => IndexOf(values, x) < IndexOf(values, y));
  }

  lemma FacetOptionsMembers(companies: seq<Record>, key: string)
    ensures forall v :: v in Filter(Distinct(FieldValues(companies, key)), NonEmpty) <==>
      v != "" && exists i :: 0 <= i < |companies| && key in companies[i] && companies[i][key] == v
  {
    var values := FieldValues(companies, key);
    var distinct := Distinct(values);
    var options := Filter(distinct, NonEmpty);
    forall v
      ensures v in options <==> v != "" && v in values
    {
      assert v in options <==> multiset(options)[v] > 0;
      assert v in distinct <==> multiset(distinct)[v] > 0;
    }
    forall v | v != ""
      ensures v in values <==> exists i :: 0 <= i < |companies| && key in companies[i] && companies[i][key] == v
    {
      if v in values {
        var i :| 0 <= i < |values| && values[i] == v;
        assert key in companies[i];
      }
      if exists i :: 0 <= i < |companies| && key in companies[i] && companies[i][key] == v {
        var i :| 0 <= i < |companies| && key in companies[i] && companies[i][key] == v;
        assert values[i] == v;
      }
    }
  }

  /** The search term and the two facet selections; "" means "no selection".
      The page only ever sets the selections to "", from their initial state
      and from its "clear filters" button. */
  datatype ListView = ListView(searchTerm: string, exchange: string, sector: string)

  const SearchKeys: seq<string> := ["Company Name", "Industry", "Headquarters"]

  /** `company[key]?.toLowerCase().includes(term.toLowerCase())`: false when the key is absent. */
  predicate FieldMatches(company: Record, key: string, term: string) {
    key in company && Contains(Lower(company[key]), Lower(term))
  }

  /** The `matchesSearch` disjunction over the three searchable fields. */
  predicate MatchesSearch(company: Record, term: string) {
    FieldMatches(company, SearchKeys[0], term) ||
    FieldMatches(company, SearchKeys[1], term) ||
    FieldMatches(company, SearchKeys[2], term)
  }

  /** `selected === "" || company[key] === selected`: exact, case-sensitive. */
  predicate MatchesFacet(company: Record, key: string, selected: string) {
    selected == "" || (key in company && company[key] == selected)
  }

  predicate Shown(company: Record, view: ListView) {
    && MatchesSearch(company, view.searchTerm)
    && MatchesFacet(company, ExchangeKey, view.exchange)
    && MatchesFacet(company, SectorKey, view.sector)
  }

  /** `filteredCompanies`: the records the grid shows, in record order. A
      non-empty selection pins its field exactly; a record is kept as often
      as it occurs when it meets all three conditions, and not at all otherwise. */
  function FilterCompanies(companies: seq<Record>, view: ListView): (shown: seq<Record>)
    ensures IsSubsequence(shown, companies)
    ensures forall i :: 0 <= i < |shown| ==> MatchesSearch(shown[i], view.searchTerm)
    ensures view.exchange != "" ==>
      forall i :: 0 <= i < |shown| ==> ExchangeKey in shown[i] && shown[i][ExchangeKey] == view.exchange
    ensures view.sector != "" ==>
      forall i :: 0 <= i < |shown| ==> SectorKey in shown[i] && shown[i][SectorKey] == view.sector
    ensures forall c :: multiset(shown)[c] == (if Shown(c, view) then multiset(companies)[c] else 0)
  {
    Filter(companies, c => Shown(c, view))
  }

  /** With both selections "", which is every state the page can reach, the
      facets constrain nothing: the grid
      shows exactly the records the search alone keeps. */
  lemma {:induction false} EmptySelectionsFilterBySearchAlone(companies: seq<Record>, term: string)
    ensures FilterCompanies(companies, ListView(term, "", "")) == Filter(companies, c => MatchesSearch(c, term))
  {
    FilterCongruent(companies, c => Shown(c, ListView(term, "", "")), c => MatchesSearch(c, term));
  }

  /** With an empty search box a record passes the search exactly when it has
      at least one of the three searchable keys, whatever their values. */
  lemma EmptySearchNeedsASearchKey(company: Record)
    ensures MatchesSearch(company, "") <==>
      SearchKeys[0] in company || SearchKeys[1] in company || SearchKeys[2] in company
  {
    assert Lower("") == "";
    forall k | k in company
      ensures Contains(Lower(company[k]), "")
    {
      ContainsEmpty(Lower(company[k]));
    }
  }

  /** The search is case-insensitive in the query: lower-casing it first changes nothing. */
  lemma SearchIgnoresQueryCase(company: Record, term: string)
    ensures MatchesSearch(company, Lower(term)) == MatchesSearch(company, term)
  {
    LowerIdempotent(term);
  }

  /** Only the three searchable fields matter: records that agree on them
      pass or fail the search together, whatever their other fields hold. */
  lemma SearchReadsOnlySearchKeys(c1: Record, c2: Record, term: string)
    requires forall k :: k in SearchKeys ==> (k in c1 <==> k in c2)
    requires forall k :: k in SearchKeys && k in c1 ==> c1[k] == c2[k]
    ensures MatchesSearch(c1, term) == MatchesSearch(c2, term)
  {
  }

  const Http := "http://"
  const Https := "https://"
  const Www := "www."

  function DropWww(s: string): string {
    if HasPrefix(s, Www) then s[|Www|..] else s
  }

  /** `url.replace(/^https?:\/\/(www\.)?/, "")`: a leading scheme, then at most
      one `www.` right after it, is removed; a URL without the scheme is kept. */
  function StripScheme(url: string): (host: string)
    ensures !HasPrefix(url, Http) && !HasPrefix(url, Https) ==> host == url
    ensures |host| <= |url| && url[|url| - |host|..] == host
    ensures HasPrefix(url, Http) || HasPrefix(url, Https) ==> |url| - |host| in {7, 8, 11, 12}
  {
    if HasPrefix(url, Https) then DropWww(url[|Https|..])
    else if HasPrefix(url, Http) then DropWww(url[|Http|..])
    else url
  }

  /** Stripping gives back the host behind either scheme, with or without one
      `www.`; with it, a second `www.` stays. */
  lemma StripSchemeRecoversHost(scheme: string, host: string)
    requires scheme == Http || scheme == Https
    ensures StripScheme(scheme + Www + host) == host
    ensures !HasPrefix(host, Www) ==> StripScheme(scheme + host) == host
  {
    assert (scheme + Www + host)[..|scheme|] == scheme;
    assert (scheme + Www + host)[|scheme|..] == Www + host;
    assert (Www + host)[..|Www|] == Www;
    assert (scheme + host)[..|scheme|] == scheme;
    assert (scheme + host)[|scheme|..] == host;
    if scheme == Http {
      assert (scheme + Www + host)[4] == ':' && (scheme + host)[4] == ':';
      assert Https[4] == 's';
    }
  }

  /** The website line of a card: `company["Website"]?.replace(...) || "N/A"`. */
  function WebsiteText(company: Record): (text: string)
    ensures text != ""
    ensures "Website" !in company ==> text == "N/A"
    ensures "Website" in company && StripScheme(company["Website"]) != "" ==> text == StripScheme(company["Website"])
    ensures "Website" in company && StripScheme(company["Website"]) == "" ==> text == "N/A"
  {
    if "Website" !in company then "N/A"
    else
      var host := StripScheme(company["Website"]);
      if host == "" then "N/A" else host
  }

  /** A website given without a scheme is shown as written (or "N/A" when blank). */
  lemma WebsiteWithoutSchemeVerbatim(company: Record)
    requires "Website" in company && company["Website"] != ""
    requires !HasPrefix(company["Website"], Http) && !HasPrefix(company["Website"], Https)
    ensures WebsiteText(company) == company["Website"]
  {
  }
}
