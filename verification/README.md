# Company directory: sheet records, list filter and detail lookup

A model of the data logic of a small company-directory website whose only
data source is a Google Sheet read through its "gviz" JSON endpoint. Two
pages hold all of that logic:

- the **company list** (`src/pages/CompanyList.jsx`) fetches the sheet,
  strips the text around the JSON payload, turns the table into one
  label-to-value record per row, computes the distinct Exchange and Sector
  values, filters the records by a free-text search and by an exact Exchange
  and Sector selection, and shows each card's website without its scheme.
  The page never renders the Exchange and Sector values, and it only ever
  sets the two selections to "" (its "clear filters" button), so in every
  state the page can reach the grid is the search filter alone
  (`EmptySelectionsFilterBySearchAlone`); the facet logic is modelled as
  written all the same;
- the **company detail** page (`src/pages/CompanyData.jsx`) repeats the
  fetch and the projection, finds the first record whose "Company Name" is
  the decoded route parameter, keeps "Company not found" apart from "Failed
  to fetch data", and shows four fixed groups of fields, prefixing financial
  values with `$` and marking LinkedIn-bearing founder lists for rewriting.

Modules, one per concern:

- `Wrappers` (`wrappers.dfy`): `Option`, for `null` cells and for calls that may fail.
- `Sequences` (`sequences.dfy`): `Array.prototype.filter` (`Filter`), the
  first-occurrence de-duplication of `[...new Set(s)]` (`Distinct`),
  subsequences and the facts about them the views need.
- `Strings` (`strings.dfy`): prefix tests (the `^` anchor of the website regex), `includes` (`Contains`, proved
  equal to "occurs at some position") and an ASCII `toLowerCase`.
- `Gviz` (`gviz.dfy`): the envelope strip, the raw table, the reference
  definition `IsRowRecord` of the record built from a row, the projection
  `ProjectRow` proved to meet it, and the proof that the definition
  determines the record uniquely.
- `CompanyList` (`company_list.dfy`) and `CompanyData` (`company_data.dfy`):
  the two pages. The detail page's copy of the projection is modelled as
  the `forEach` loop it is (`ProjectRowInPlace`), proved to meet the same
  reference definition and hence to equal the list page's `ProjectRow`.

The row projection's loop runs over the row's own cells, so a short row
has no key for its trailing columns; it does not get "" for them. A cell
beyond the header is dropped. A `null` cell
does give "". When two columns share a label, the rightmost one present in
the row wins.

The fetch, `JSON.parse` and `decodeURIComponent` are parameters: the response
is an `Option<string>` (None for a transport failure), `parse` maps the
stripped text to an `Option<RawTable>` (None for malformed JSON or a payload
without `table.cols`/`table.rows`), and `decode` maps the route parameter to
an `Option<string>` (None when it throws).

## Model

| member | source | states |
|---|---|---|
| Gviz.StripEnvelope | src/pages/CompanyList.jsx:44 | With at least 49 characters the payload is the text minus its first 47 and last 2; shorter text leaves the empty string |
| Gviz.StripEnvelopeUnwraps | src/pages/CompanyList.jsx:44 | For any 47-character prefix and 2-character suffix, stripping prefix + body + suffix returns exactly body |
| Gviz.ProjectRow | src/pages/CompanyList.jsx:48-56 | The record of a row has no "" key, has exactly the labels of the cells that are within the row and the header and have a non-empty label, and holds under each the value of the rightmost such cell ("" for a null cell) |
| Gviz.IsRowRecordUnique | src/pages/CompanyList.jsx:49-55 | The key and value rules pin the record down: two records meeting them for the same row are equal |
| Gviz.ProjectRowIgnoresExtraCells | src/pages/CompanyList.jsx:50-53 | Cells at positions at or beyond the number of columns contribute nothing |
| Gviz.ShortRowLacksTrailingKeys | src/pages/CompanyList.jsx:50-53 | A row shorter than the header has no key for a trailing column (unless an earlier cell has the same label); it does not get "" |
| Gviz.Project | src/pages/CompanyList.jsx:47-56 | Exactly one record per table row, record i built from row i, in row order with no sorting |
| CompanyList.LoadCompanies | src/pages/CompanyList.jsx:40-64 | The page fails exactly when the fetch or the parse fails; otherwise it holds one record per row, each built by the row rule |
| CompanyList.FacetOptions | src/pages/CompanyList.jsx:71-76 | The Exchange / Sector options have no duplicates and no "", are exactly the non-empty values the field takes in some record, and come in order of first appearance |
| CompanyList.FilterCompanies | src/pages/CompanyList.jsx:79-93 | The shown records are an order-preserving subsequence of the records; each passes the search; a non-empty selection pins its field exactly (case-sensitive); a record appears as often as in the input when it meets all three conditions and not at all otherwise |
| CompanyList.EmptySelectionsFilterBySearchAlone | src/pages/CompanyList.jsx:87-90 | With both selections empty the facets impose nothing: the result is the records filtered by the search alone |
| CompanyList.EmptySearchNeedsASearchKey | src/pages/CompanyList.jsx:80-85 | With an empty query a record passes the search iff it has a "Company Name", "Industry" or "Headquarters" key, so records lacking all three are still excluded |
| CompanyList.SearchIgnoresQueryCase | src/pages/CompanyList.jsx:80-85 | Lower-casing the query first does not change the search result |
| CompanyList.SearchReadsOnlySearchKeys | src/pages/CompanyList.jsx:80-85 | Records that agree on the three searchable fields pass or fail the search together: a match in any other field counts for nothing |
| CompanyList.StripScheme | src/pages/CompanyList.jsx:376-378 | The result is a suffix of the URL; a URL not starting with `http://` or `https://` is unchanged; otherwise exactly 7, 8, 11 or 12 leading characters go |
| CompanyList.StripSchemeRecoversHost | src/pages/CompanyList.jsx:376-378 | Stripping `http://` or `https://` plus one `www.` gives back the host (a second `www.` stays); without `www.` the scheme alone goes |
| CompanyList.WebsiteText | src/pages/CompanyList.jsx:376-379 | The website line is never empty: "N/A" when the website is absent or strips to "", otherwise the stripped URL |
| CompanyList.WebsiteWithoutSchemeVerbatim | src/pages/CompanyList.jsx:376-379 | A non-empty website without a scheme is shown as written |
| CompanyData.ProjectRowInPlace | src/pages/CompanyData.jsx:26-34 | The detail page's `forEach` copy builds the record the row rule defines, and so the same record as the list page's projection |
| CompanyData.ProjectTableInPlace | src/pages/CompanyData.jsx:22-34 | The detail page's records are the list page's records: same rows, same order, same drop and null rules |
| CompanyData.FindCompany | src/pages/CompanyData.jsx:37-45 | A found record is in the list, its "Company Name" equals the decoded parameter exactly, and no earlier record matches; "not found" iff the list is empty or no record's name equals it; a decoding failure on a non-empty list is a failure |
| CompanyData.LoadCompany | src/pages/CompanyData.jsx:11-51 | "Failed to fetch data" exactly when the fetch or parse fails or decoding fails with records present; "Company not found" exactly when the table loads and no record has the decoded name; otherwise the first match |
| CompanyData.ErrorMessage | src/pages/CompanyData.jsx:41-48 | The page sets an error exactly when no company was found: "Company not found" for that outcome and "Failed to fetch data" for a failure |
| CompanyData.ErrorMessagesDistinguishOutcomes | src/pages/CompanyData.jsx:44-48 | "Company not found" and "Failed to fetch data" are different messages, so the two failure outcomes are never shown as one another |
| CompanyData.FormatCurrency | src/pages/CompanyData.jsx:310-313 | The shown value always contains `$`; it equals the value exactly when the value already contains `$`, and is `$` + value otherwise |
| CompanyData.FormatCurrencyIdempotent | src/pages/CompanyData.jsx:310-313 | Formatting a formatted value changes nothing |
| CompanyData.GroupKeysDistinct | src/pages/CompanyData.jsx:117-135 | No group lists a key twice |
| CompanyData.ShownKeys | src/pages/CompanyData.jsx:264-276 | A group shows exactly the keys of its fixed list whose value is present and non-empty, each once, in the list's order |
| CompanyData.ShowValue | src/pages/CompanyData.jsx:391-403 | A value is rewritten iff it is the "Founders & LinkedIn URLs" value and contains "LinkedIn:"; every other non-financial value is shown verbatim; financial values are shown as `FormatCurrency` gives them, so always with a `$` |
| CompanyData.ShowGroup | src/pages/CompanyData.jsx:383-407 | A group's rows are its shown keys in order, each with a present non-empty value rendered by the value rule |
| Sequences.Filter | src/pages/CompanyList.jsx:79 | Keeps exactly the elements satisfying the predicate, each as often as it occurs, as a subsequence of the input |
| Sequences.Distinct | src/pages/CompanyList.jsx:72 | Exactly the input's values, each once, in order of first occurrence |
| Strings.Contains | src/pages/CompanyList.jsx:82-83 | `includes` holds iff the needle occurs at some position of the string |

## Left out

- The fetch, the URL built from the fixed sheet and tab identifiers, `useEffect` and the loading state: the response is an input, None standing for any transport failure. Each page fetches independently and nothing is cancelled; no concurrency is modelled.
- `JSON.parse` and the reads of `table.cols`, `table.rows` and `row.c`: a `parse` parameter whose None is any parse or shape failure.
- `decodeURIComponent` on the route parameter and `encodeURIComponent` for card links: `decode` is a parameter that may fail; encoding is not modelled.
- Strings.Lower: lower-cases ASCII letters only, not full Unicode case mapping.
- Cell values are strings; numeric cells and cells without a `v` are not modelled. A number in "Company Name", "Industry" or "Headquarters" makes `toLowerCase` throw when its disjunct of the search test is evaluated: always for "Company Name", and for the other two only when the earlier fields did not match (the `||` chain short-circuits). The throw happens while rendering, outside the fetch's `try`, so the list page then fails to render; the model has no such failure.
- Gviz.StripEnvelope: counts Unicode scalar values, while `substring` and `slice` count UTF-16 code units; the two agree whenever no character outside the Basic Multilingual Plane lies in the 47 leading or 2 trailing characters, as holds for the ASCII envelope of a gviz response.
- JavaScript property-key quirks of the record object (a `__proto__` label, the enumeration order of integer-like keys): a record is an unordered map.
- The LinkedIn URL regex rewrite and its HTML injection: only the condition that selects a value for rewriting is modelled.
- The `console.error` logging in both pages' `catch` blocks.
- The random "growth" figures on the cards (`Math.random`).
- Card and header fallbacks of the same "present and non-empty" kind (Industry, Headquarters and Valuation shown as "N/A", the detail header's Industry, Website and description): presentation only.
- src/pages/LandingPage.jsx (static content and tab state) and src/routes/AppRoutes.jsx (the route table).
