/** The Google Sheets "gviz" response: the wrapper around its JSON payload and
    the projection of the decoded table into one label-to-value record per row,
    as both pages do it. */
module Gviz {
  import opened Wrappers

  /** Length of the non-JSON text before the payload (`google.visualization.Query.setResponse(`
      plus the comment that precedes it). */
  const PrefixLength: nat := 47
  /** Length of the `);` after the payload. */
  const SuffixLength: nat := 2

  /** `text.substring(47).slice(0, -2)`: `substring` clamps a start past the end
      to the end, and `slice` with a negative end counts from the end and
      clamps below at 0. */
  function StripEnvelope(text: string): (body: string)
    ensures |text| >= PrefixLength + SuffixLength ==> body == text[PrefixLength..|text| - SuffixLength]
    ensures |text| < PrefixLength + SuffixLength ==> body == ""
  {
    var rest := if |text| < PrefixLength then "" else text[PrefixLength..];
    if |rest| < SuffixLength then "" else rest[..|rest| - SuffixLength]
  }

  /** Stripping a 47-character prefix and a 2-character suffix gives back exactly what they wrapped. */
  lemma StripEnvelopeUnwraps(prefix: string, body: string, suffix: string)
    requires |prefix| == PrefixLength && |suffix| == SuffixLength
    ensures StripEnvelope(prefix + body + suffix) == body
  {
  }

  /** One entry of `row.c`: `null`, or a cell whose value `v` is a string. */
  type Cell = Option<string>

  /** One company: column label to cell value. */
  type Record = map<string, string>

  /** The part of the parsed payload the pages read: `table.cols[i].label` and
      `table.rows[r].c`. A missing label is the empty string. */
  datatype RawTable = RawTable(labels: seq<string>, rows: seq<seq<Cell>>)

  /** `cell ? cell.v : ""`. */
  function CellValue(c: Cell): string {
    c.GetOr("")
  }

  /** Cell `i` of the row is stored: it is within the row, within the header,
      and its label is non-empty (`headers[i]` is truthy). */
  ghost predicate Stored(labels: seq<string>, cells: seq<Cell>, i: int) {
    0 <= i < |cells| && i < |labels| && labels[i] != ""
  }

  /** Cell `i` is stored and no later stored cell of the row has the same label. */
  ghost predicate LastOfLabel(labels: seq<string>, cells: seq<Cell>, i: int) {
    Stored(labels, cells, i) &&
    forall j :: i < j < |cells| && j < |labels| ==> labels[j] != labels[i]
  }

  /** The labels of the stored cells of a row. */
  ghost function StoredLabels(labels: seq<string>, cells: seq<Cell>): set<string> {
    set i | 0 <= i < |cells| && i < |labels| && labels[i] != "" :: labels[i]
  }

  /** Reference definition of the record built from one row: its keys are the
      labels of the stored cells, and each key holds the value of the rightmost
      stored cell under that label (a null cell giving ""). */
  ghost predicate IsRowRecord(labels: seq<string>, cells: seq<Cell>, m: Record) {
    && m.Keys == StoredLabels(labels, cells)
    && (forall i :: LastOfLabel(labels, cells, i) ==> labels[i] in m && m[labels[i]] == CellValue(cells[i]))
  }

  /** The body of `row.c.forEach((cell, i) => ...)`: `if (headers[i]) record[headers[i]] = cell ? cell.v : ""`. */
  function AssignCell(m: Record, labels: seq<string>, i: nat, c: Cell): Record {
    if i < |labels| && labels[i] != "" then m[labels[i] := CellValue(c)] else m
  }

  /** Running the loop body on one more cell extends a record of the row's
      prefix to a record of the longer prefix. */
  lemma AssignCellExtends(labels: seq<string>, cells: seq<Cell>, m: Record)
    requires |cells| > 0
    requires IsRowRecord(labels, cells[..|cells| - 1], m)
    ensures IsRowRecord(labels, cells, AssignCell(m, labels, |cells| - 1, cells[|cells| - 1]))
  {
    var n := |cells| - 1;
    var init := cells[..n];
    var m' := AssignCell(m, labels, n, cells[n]);
    assert StoredLabels(labels, cells) ==
      StoredLabels(labels, init) + (if Stored(labels, cells, n) then {labels[n]} else {});
    forall i | LastOfLabel(labels, cells, i)
      ensures labels[i] in m' && m'[labels[i]] == CellValue(cells[i])
    {
      if i < n {
        assert LastOfLabel(labels, init, i);
      }
    }
  }

  /** The record `forEach` builds from one row, cell by cell, a later cell
      overwriting an earlier one with the same label. */
  function ProjectRow(labels: seq<string>, cells: seq<Cell>): (m: Record)
    ensures IsRowRecord(labels, cells, m)
    ensures "" !in m
    decreases |cells|
  {
    if cells == [] then map[]
    else
      var n := |cells| - 1;
      var m := ProjectRow(labels, cells[..n]);
      AssignCellExtends(labels, cells, m);
      AssignCell(m, labels, n, cells[n])
  }

  /** Every stored label has a rightmost stored occurrence at or after it. */
  lemma LastOccurrence(labels: seq<string>, cells: seq<Cell>, i: int) returns (j: int)
    requires Stored(labels, cells, i)
    ensures i <= j && LastOfLabel(labels, cells, j) && labels[j] == labels[i]
    decreases |cells| - i
  {
    if exists j' :: i < j' < |cells| && j' < |labels| && labels[j'] == labels[i] {
      var j' :| i < j' < |cells| && j' < |labels| && labels[j'] == labels[i];
      j := LastOccurrence(labels, cells, j');
    } else {
      j := i;
    }
  }

  /** The reference definition determines the record: two records that both
      meet it for the same row are equal. */
  lemma {:induction false} IsRowRecordUnique(labels: seq<string>, cells: seq<Cell>, m1: Record, m2: Record)
    requires IsRowRecord(labels, cells, m1)
    requires IsRowRecord(labels, cells, m2)
    ensures m1 == m2
  {
    forall k | k in m1
      ensures k in m2 && m1[k] == m2[k]
    {
      var i :| Stored(labels, cells, i) && labels[i] == k;
      var j := LastOccurrence(labels, cells, i);
    }
    assert m1.Keys == m2.Keys;
  }

  /** Cells at or beyond the number of columns contribute nothing: the row
      projects as its first `|labels|` cells do. */
  lemma {:induction false} ProjectRowIgnoresExtraCells(labels: seq<string>, cells: seq<Cell>)
    requires |labels| <= |cells|
    ensures ProjectRow(labels, cells) == ProjectRow(labels, cells[..|labels|])
  {
    var head := cells[..|labels|];
    var m := ProjectRow(labels, head);
    forall i ensures Stored(labels, cells, i) == Stored(labels, head, i) {
    }
    forall i | LastOfLabel(labels, cells, i)
      ensures labels[i] in m && m[labels[i]] == CellValue(cells[i])
    {
      assert LastOfLabel(labels, head, i);
    }
    assert IsRowRecord(labels, cells, m);
    IsRowRecordUnique(labels, cells, m, ProjectRow(labels, cells));
  }

  /** A row with fewer cells than columns has no key for a trailing column
      whose label does not also head one of the row's cells; it does not get "". */
  lemma ShortRowLacksTrailingKeys(labels: seq<string>, cells: seq<Cell>, j: nat)
    requires |cells| <= j < |labels|
    requires forall i :: 0 <= i < |cells| && i < |labels| ==> labels[i] != labels[j]
    ensures labels[j] !in ProjectRow(labels, cells)
  {
  }

  /** `rows.map(...)`: one record per table row, in row order. */
  function Project(t: RawTable): (records: seq<Record>)
    ensures |records| == |t.rows|
    ensures forall i :: 0 <= i < |records| ==> IsRowRecord(t.labels, t.rows[i], records[i])
  {
    seq(|t.rows|, i requires 0 <= i < |t.rows| => ProjectRow(t.labels, t.rows[i]))
  }

  /** The table behind a response: None when the fetch failed, or when the
      stripped text does not decode to a table with `cols` and `rows`
      (`parse` stands for `JSON.parse` followed by those field reads). */
  function FetchTable(response: Option<string>, parse: string -> Option<RawTable>): (t: Option<RawTable>)
    ensures t.Some? <==> response.Some? && parse(StripEnvelope(response.value)).Some?
  {
    match response
    case None => None
    case Some(text) => parse(StripEnvelope(text))
  }
}
