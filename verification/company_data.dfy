/** The company detail page: its own copy of the record projection, the
    first-match lookup by company name, and how each information group
    displays its fields. */
module CompanyData {
  import opened Wrappers
  import opened Sequences
  import opened Strings
  import opened Gviz

  /** The page's outcome: the company, "Company not found", or "Failed to fetch data". */
  datatype Detail = Found(company: Record) | NotFound | Failed

  /** The `error` state the page sets: none when the company is found, one
      message for a name no record has, another for any fetch or parse failure. */
  function ErrorMessage(d: Detail): (msg: Option<string>)
    ensures msg.None? <==> d.Found?
    ensures msg.Some? ==> msg.value != ""
    ensures d.NotFound? ==> msg == Some("Company not found")
    ensures d.Failed? ==> msg == Some("Failed to fetch data")
  {
    match d
    case Found(_) => None
    case NotFound => Some("Company not found")
    case Failed => Some("Failed to fetch data")
  }

  /** The two error states are told apart by their messages: "not found" is
      never shown as a fetch failure, nor the other way round. */
  lemma ErrorMessagesDistinguishOutcomes(d1: Detail, d2: Detail)
    requires !d1.Found? && !d2.Found?
    ensures ErrorMessage(d1) == ErrorMessage(d2) <==> d1 == d2
  {
  }

  /** The detail page's copy of the row projection, as the `forEach` loop that
      assigns into a fresh object. It builds the record the reference
      definition describes, so it is the list page's `ProjectRow`. */
  method ProjectRowInPlace(labels: seq<string>, cells: seq<Cell>) returns (m: Record)
    ensures m == ProjectRow(labels, cells)
  {
    m := map[];
    var i := 0;
    while i < |cells|
      invariant 0 <= i <= |cells|
      invariant IsRowRecord(labels, cells[..i], m)
    {
      assert cells[..i + 1][..i] == cells[..i];
      AssignCellExtends(labels, cells[..i + 1], m);
      m := AssignCell(m, labels, i, cells[i]);
      i := i + 1;
    }
    assert cells[..i] == cells;
    IsRowRecordUnique(labels, cells, m, ProjectRow(labels, cells));
  }

  /** The detail page's `rows.map(...)`: the same records, in the same order,
      as the list page's projection. */
  method ProjectTableInPlace(t: RawTable) returns (records: seq<Record>)
    ensures records == Project(t)
  {
    records := [];
    var i := 0;
    while i < |t.rows|
      invariant 0 <= i <= |t.rows|
      invariant records == Project(t)[..i]
    {
      var r := ProjectRowInPlace(t.labels, t.rows[i]);
      assert Project(t)[..i + 1] == Project(t)[..i] + [r];
      records := records + [r];
      i := i + 1;
    }
    assert Project(t)[..i] == Project(t);
  }

  const NameKey := "Company Name"

  /** `name === company["Company Name"]`: exact and case-sensitive; a record
      without the key never matches. */
  predicate NameIs(company: Record, name: string) {
    NameKey in company && company[NameKey] == name
  }

  /** Record `i` is the first one whose name is `name`. */
  ghost predicate IsFirstMatch(companies: seq<Record>, name: string, i: int) {
    0 <= i < |companies| && NameIs(companies[i], name) &&
    forall j :: 0 <= j < i ==> !NameIs(companies[j], name)
  }

  /** `rows.find((comp) => decodeURIComponent(param) === comp["Company Name"])`.
      The decoding runs inside the callback, once per record visited, so it is
      never run on an empty list, and a decoding failure on a non-empty list
      throws out of `find` (a failure, not "not found"). */
  method FindCompany(companies: seq<Record>, param: string, decode: string -> Option<string>) returns (d: Detail)
    ensures d.Failed? <==> |companies| > 0 && decode(param).None?
    ensures d.Found? ==>
      && decode(param).Some?
      && exists i :: IsFirstMatch(companies, decode(param).value, i) && companies[i] == d.company
    ensures d.NotFound? <==>
      || |companies| == 0
      || (decode(param).Some? && forall i :: 0 <= i < |companies| ==> !NameIs(companies[i], decode(param).value))
  {
    var i := 0;
    while i < |companies|
      invariant 0 <= i <= |companies|
      invariant i > 0 ==> decode(param).Some?
      invariant i > 0 ==> forall j :: 0 <= j < i ==> !NameIs(companies[j], decode(param).value)
    {
      var name := decode(param);
      if name.None? {
        return Failed;
      }
      if NameIs(companies[i], name.value) {
        assert IsFirstMatch(companies, name.value, i);
        return Found(companies[i]);
      }
      i := i + 1;
    }
    return NotFound;
  }

  /** The whole detail page load: fetch, strip, parse, project, find. Only a
      failed fetch or parse, or a failed decoding with records present, gives
      "Failed to fetch data"; a name no record has gives "Company not found". */
  method LoadCompany(response: Option<string>, parse: string -> Option<RawTable>,
                     param: string, decode: string -> Option<string>) returns (d: Detail)
    ensures d.Failed? <==>
      FetchTable(response, parse).None? ||
      (|FetchTable(response, parse).value.rows| > 0 && decode(param).None?)
    ensures d.NotFound? <==>
      && FetchTable(response, parse).Some?
      && (|FetchTable(response, parse).value.rows| == 0 ||
          (decode(param).Some? &&
           forall i :: 0 <= i < |Project(FetchTable(response, parse).value)| ==>
             !NameIs(Project(FetchTable(response, parse).value)[i], decode(param).value)))
    ensures d.Found? ==>
      && FetchTable(response, parse).Some? && decode(param).Some?
      && exists i :: IsFirstMatch(Project(FetchTable(response, parse).value), decode(param).value, i)
                  && Project(FetchTable(response, parse).value)[i] == d.company
  {
    var table := FetchTable(response, parse);
    if table.None? {
      return Failed;
    }
    var companies := ProjectTableInPlace(table.value);
    d := FindCompany(companies, param, decode);
  }

  /** The value shown in the Financial group: a string already holding `$` is
      left alone, anything else gets a `$` in front. */
  function FormatCurrency(v: string): (shown: string)
    ensures '$' in shown
    ensures '$' in v <==> shown == v
    ensures shown == v || shown == "$" + v
  {
    ContainsChar(v, '$');
    if Contains(v, "$") then v else "$" + v
  }

  /** Formatting an already formatted value changes nothing. */
  lemma FormatCurrencyIdempotent(v: string)
    ensures FormatCurrency(FormatCurrency(v)) == FormatCurrency(v)
  {
  }

  /** The four information groups of the page. */
  datatype Group = General | Financial | Product | People

  const FoundersKey := "Founders & LinkedIn URLs"

  /** The fixed keys of each group, in display order, spelled as the sheet's headers are. */
  function GroupKeys(g: Group): seq<string> {
    match g
    case General => ["Industry", "Headquarters", "Founding Year", "Number of Employees"]
    case Financial => ["Funding Raised", "Revenue", "Valuation"]
    case Product => ["Target Customers", "AI Capabilties", "Supported Conditons", "Integrations", "Regulatory Approvals"]
    case People => [FoundersKey, "Key Contacts", "Social Media Links"]
  }

  /** `company[key] &&`: the key is present and its value is not "". */
  predicate HasValue(company: Record, key: string) {
    key in company && company[key] != ""
  }

  /** No key is listed twice in a group. */
  lemma GroupKeysDistinct(g: Group)
    ensures NoDuplicates(GroupKeys(g))
  {
  }

  /** The keys a group displays: exactly those of its list whose value is
      present and non-empty, each once, in the list's order. */
  function ShownKeys(company: Record, g: Group): (keys: seq<string>)
    ensures IsSubsequence(keys, GroupKeys(g))
    ensures forall k :: k in keys <==> k in GroupKeys(g) && HasValue(company, k)
    ensures NoDuplicates(keys)
  {
    var keys := Filter(GroupKeys(g), k => HasValue(company, k));
    ShownKeysDistinct(keys, g);
    ShownKeysMembers(company, g);
    keys
  }

  lemma ShownKeysDistinct(keys: seq<string>, g: Group)
    requires IsSubsequence(keys, GroupKeys(g))
    ensures NoDuplicates(keys)
  {
    GroupKeysDistinct(g);
    SubsequencePairwise(keys, GroupKeys(g), (x, y) => x != y);
  }

  lemma ShownKeysMembers(company: Record, g: Group)
    ensures forall k :: k in Filter(GroupKeys(g), k => HasValue(company, k)) <==> k in GroupKeys(g) && HasValue(company, k)
  {
    var keys := Filter(GroupKeys(g), k => HasValue(company, k));
    forall k ensures k in keys <==> k in GroupKeys(g) && HasValue(company, k) {
      assert k in keys <==> multiset(keys)[k] > 0;
    }
  }

  /** How a displayed value is rendered: as text, or as the markup produced by
      rewriting its LinkedIn URLs into links (the rewrite itself is not modelled). */
  datatype Rendered = Text(text: string) | LinkedInMarkup(raw: string)

  /** The rendering of `value` under `key` in group `g`. Only a Founders value
      containing "LinkedIn:" is rewritten; Financial values are currency
      formatted; everything else is shown verbatim. */
  function ShowValue(g: Group, key: string, value: string): (s: Rendered)
    ensures s.LinkedInMarkup? <==> g == People && key == FoundersKey && Contains(value, "LinkedIn:")
    ensures s.LinkedInMarkup? ==> s.raw == value
    ensures s.Text? && g != Financial ==> s.text == value
    ensures g == Financial ==> s == Text(FormatCurrency(value)) && '$' in s.text
  {
    match g
    case Financial => Text(FormatCurrency(value))
    case People =>
      if key == FoundersKey && Contains(value, "LinkedIn:") then LinkedInMarkup(value) else Text(value)
    case _ => Text(value)
  }

  /** A group's rows as displayed: its shown keys, in order, each with its rendered value. */
  function ShowGroup(company: Record, g: Group): (rows: seq<(string, Rendered)>)
    ensures |rows| == |ShownKeys(company, g)|
    ensures forall i :: 0 <= i < |rows| ==> rows[i].0 == ShownKeys(company, g)[i]
    ensures forall i :: 0 <= i < |rows| ==>
      HasValue(company, rows[i].0) && rows[i].1 == ShowValue(g, rows[i].0, company[rows[i].0])
  {
    var keys := ShownKeys(company, g);
    seq(|keys|, i requires 0 <= i < |keys| => (keys[i], ShowValue(g, keys[i], company[keys[i]])))
  }
}
