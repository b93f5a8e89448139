/** The review table: its own working copy of the rows, the current page and
    a pending deletion; fixed ten-row pages, Previous/Next buttons, deletion
    by `splice`, and the red highlight of rows that have errors. */
module DataTable {
  import opened JsValues
  import opened Upload

  const RowsPerPage: nat := 10

  /** `rows`, `page` and `deleteIndex` (null is None). */
  datatype Table = Table(rows: seq<Row>, page: int, deleteIndex: Option<int>)

  /** State on mount: the rows handed in, first page, nothing pending. */
  function Mount(data: seq<Row>): Table {
    Table(data, 1, None)
  }

  /** JavaScript's reading of a relative index: negative counts from the end,
      and the result is clamped into `0..len`. */
  function RelativeIndex(i: int, len: nat): (r: nat)
    ensures r <= len
    ensures 0 <= i <= len ==> r == i
    ensures i > len ==> r == len
    ensures i < 0 ==> r == if len + i < 0 then 0 else len + i
  {
    if i < 0 then (if len + i < 0 then 0 else len + i)
    else if i > len then len
    else i
  }

  /** `s.slice(start, end)`. */
  function Slice<T>(s: seq<T>, start: int, end: int): (r: seq<T>)
    ensures |r| <= |s|
    ensures 0 <= start <= end <= |s| ==> r == s[start..end]
  {
    var from := RelativeIndex(start, |s|);
    var to := RelativeIndex(end, |s|);
    if from < to then s[from..to] else []
  }

  /** `s.splice(start, 1)` on a copy: the surviving elements. */
  function SpliceOne<T>(s: seq<T>, start: int): (r: seq<T>)
    ensures var k := RelativeIndex(start, |s|);
            && (k < |s| ==> |r| == |s| - 1
                            && (forall j :: 0 <= j < k ==> r[j] == s[j])
                            && (forall j :: k <= j < |r| ==> r[j] == s[j + 1])
                            && multiset(r) + multiset{s[k]} == multiset(s))
            && (k == |s| ==> r == s)
  {
    var k := RelativeIndex(start, |s|);
    if k < |s| then
      assert s == s[..k] + [s[k]] + s[k + 1..];
      s[..k] + s[k + 1..]
    else s
  }

  /** Rows shown on a page: `rows.slice(startIndex, startIndex + rowsPerPage)`. */
  function PageRows(rows: seq<Row>, page: int): (r: seq<Row>)
    ensures |r| <= RowsPerPage
    ensures page >= 1 ==>
              var start := (page - 1) * RowsPerPage;
              r == if start >= |rows| then []
                   else rows[start..if start + RowsPerPage <= |rows| then start + RowsPerPage else |rows|]
  {
    var start := (page - 1) * RowsPerPage;
    Slice(rows, start, start + RowsPerPage)
  }

  function Visible(t: Table): seq<Row> {
    PageRows(t.rows, t.page)
  }

  /** `Math.ceil(rows.length / rowsPerPage)`. */
  function TotalPages(n: nat): (p: nat)
    ensures p * RowsPerPage >= n
    ensures p == 0 || (p - 1) * RowsPerPage < n
  {
    (n + RowsPerPage - 1) / RowsPerPage
  }

  /** The Previous button; when disabled (on page 1) nothing happens. */
  function Previous(t: Table): (t': Table)
    ensures t'.rows == t.rows && t'.deleteIndex == t.deleteIndex
    ensures t'.page >= 1
    ensures t.page <= 1 ==> t'.page == 1
    ensures t.page > 1 ==> t'.page == t.page - 1
  {
    if t.page == 1 then t
    else t.(page := if t.page - 1 > 1 then t.page - 1 else 1)
  }

  /** The Next button; when disabled (on the last page) nothing happens. */
  function Next(t: Table): (t': Table)
    ensures t'.rows == t.rows && t'.deleteIndex == t.deleteIndex
    ensures t'.page <= TotalPages(|t.rows|)
    ensures t.page >= TotalPages(|t.rows|) ==> t'.page == TotalPages(|t.rows|)
    ensures t.page < TotalPages(|t.rows|) ==> t'.page == t.page + 1
  {
    var total := TotalPages(|t.rows|);
    if t.page == total then t
    else t.(page := if total < t.page + 1 then total else t.page + 1)
  }

  /** The trash button of display row `index`: remembers the index. */
  function HandleDelete(t: Table, index: int): (t': Table)
    ensures t'.rows == t.rows && t'.page == t.page
    ensures t'.deleteIndex == Some(index)
  {
    t.(deleteIndex := Some(index))
  }

  /** Confirming the dialog: splice the remembered index out of the full
      `rows` and clear it; without a pending index nothing changes. */
  function ConfirmDelete(t: Table): (t': Table)
    ensures t.deleteIndex.None? ==> t' == t
    ensures t.deleteIndex.Some? ==> t'.deleteIndex.None? && t'.page == t.page
    ensures t.deleteIndex.Some? && 0 <= t.deleteIndex.value < |t.rows| ==>
              var i := t.deleteIndex.value;
              && |t'.rows| == |t.rows| - 1
              && (forall j :: 0 <= j < i ==> t'.rows[j] == t.rows[j])
              && (forall j :: i <= j < |t'.rows| ==> t'.rows[j] == t.rows[j + 1])
              && multiset(t'.rows) + multiset{t.rows[i]} == multiset(t.rows)
  {
    match t.deleteIndex
    case None => t
    case Some(i) => Table(SpliceOne(t.rows, i), t.page, None)
  }

  /** Closing the dialog (`onOpenChange`): the pending index is dropped and
      the rows are kept. */
  function CancelDelete(t: Table): (t': Table)
    ensures t'.rows == t.rows && t'.page == t.page
    ensures t'.deleteIndex.None?
  {
    t.(deleteIndex := None)
  }

  /** The Verified column prints `row.Verified ? 'Yes' : 'No'`: a truthiness
      test, not the store's equality test. */
  function VerifiedLabel(row: Row): string {
    if Truthy(Field(row, "Verified")) then "Yes" else "No"
  }

  /** `errors.some(e => e.row === index + 2)` for display row `index`. */
  predicate Highlighted(errors: seq<ValidationError>, index: nat) {
    exists j :: 0 <= j < |errors| && errors[j].row == RowNumber(index)
  }

  /** Concatenation of pages 1 through `k`. */
  function Pages(rows: seq<Row>, k: nat): seq<Row> {
    if k == 0 then [] else Pages(rows, k - 1) + PageRows(rows, k)
  }

  /** Pages `1..k` together are the first `10k` rows (or all of them). */
  lemma {:induction false} PagesArePrefix(rows: seq<Row>, k: nat)
    ensures Pages(rows, k) == rows[..if k * RowsPerPage <= |rows| then k * RowsPerPage else |rows|]
  {
    if k > 0 {
      PagesArePrefix(rows, k - 1);
      var a := if (k - 1) * RowsPerPage <= |rows| then (k - 1) * RowsPerPage else |rows|;
      var b := if k * RowsPerPage <= |rows| then k * RowsPerPage else |rows|;
      assert rows[..b] == rows[..a] + rows[a..b];
    }
  }

  /** Reading every page in turn shows every row once, in order. */
  lemma PagesCoverRows(rows: seq<Row>)
    ensures Pages(rows, TotalPages(|rows|)) == rows
  {
    PagesArePrefix(rows, TotalPages(|rows|));
  }

  /** Twelve rows make two pages: rows 0-9, then rows 10-11. */
  lemma TwelveRowsTwoPages(rows: seq<Row>)
    requires |rows| == 12
    ensures TotalPages(|rows|) == 2
    ensures PageRows(rows, 1) == rows[0..10]
    ensures PageRows(rows, 2) == rows[10..12]
  {
  }

  /** With no rows there are no pages, and Next is not disabled on page 1: it
      moves to page 0. */
  lemma NextOnEmptyTableReachesPageZero()
    ensures Next(Table([], 1, None)).page == 0
  {
  }

  /** Previous and Next keep the page within `1..totalPages` once inside it
      (with at least one row). */
  lemma NavigationStaysInRange(t: Table)
    requires 1 <= t.page <= TotalPages(|t.rows|)
    ensures 1 <= Previous(t).page <= TotalPages(|t.rows|)
    ensures 1 <= Next(t).page <= TotalPages(|t.rows|)
  {
  }

  /** The delete index is page-local but spliced out of the full rows: on page
      `p`, deleting display row `i` removes `rows[i]`, not the row that was on
      screen at that position, which is `rows[(p - 1) * 10 + i]`. */
  lemma DeleteUsesPageLocalIndex(t: Table, i: nat)
    requires t.page >= 1
    requires i < |Visible(t)|
    ensures Visible(t)[i] == t.rows[(t.page - 1) * RowsPerPage + i]
    ensures ConfirmDelete(HandleDelete(t, i)).rows == t.rows[..i] + t.rows[i + 1..]
  {
    var t' := ConfirmDelete(HandleDelete(t, i));
    assert t'.rows == t.rows[..i] + t.rows[i + 1..];
  }

  /** On a later page the displayed row survives its own deletion: it sits at
      full index `g = (p - 1) * 10 + i`, beyond the spliced index `i`, so it
      moves down to `g - 1`. */
  lemma DeleteOnLaterPageKeepsClickedRow(t: Table, i: nat)
    requires t.page > 1
    requires i < |Visible(t)|
    ensures var g := (t.page - 1) * RowsPerPage + i;
            && g - 1 < |ConfirmDelete(HandleDelete(t, i)).rows|
            && ConfirmDelete(HandleDelete(t, i)).rows[g - 1] == Visible(t)[i]
    ensures Visible(t)[i] in ConfirmDelete(HandleDelete(t, i)).rows
  {
    var clicked := Visible(t)[i];
    var g := (t.page - 1) * RowsPerPage + i;
    var t' := ConfirmDelete(HandleDelete(t, i));
    assert t.rows[g] == clicked;
    assert t'.rows[g - 1] == t.rows[g];
  }

  /** Highlighting looks only at the page-local index: on a later page, errors
      recorded for the row actually displayed at position `i` (spreadsheet row
      `(p - 1) * 10 + i + 2`) never mark it. */
  lemma HighlightUsesPageLocalRow(t: Table, errors: seq<ValidationError>, i: nat)
    requires t.page > 1 && i < |Visible(t)|
    requires forall j :: 0 <= j < |errors| ==> errors[j].row == RowNumber((t.page - 1) * RowsPerPage + i)
    ensures !Highlighted(errors, i)
  {
  }

  /** On page 2 the first display row is `rows[10]` (spreadsheet row 12), yet
      an error recorded for row 12 does not mark it, while an error for row 2
      (the first page's first row) does. */
  lemma SecondPageHighlightMismatch(t: Table, sheet: string, msg: string)
    requires t.page == 2 && |t.rows| > 10
    ensures |Visible(t)| > 0 && Visible(t)[0] == t.rows[10]
    ensures !Highlighted([ValidationError(sheet, RowNumber(10), msg)], 0)
    ensures Highlighted([ValidationError(sheet, RowNumber(0), msg)], 0)
  {
    assert [ValidationError(sheet, RowNumber(0), msg)][0].row == RowNumber(0);
  }
}
