/** The uploader component: validating every row of every decoded sheet
    when a file is dropped (`onDrop`), and choosing the rows to send when the
    user imports (`handleImport`). */
module Upload {
  import opened JsValues
  import opened Validation

  /** One failure, tagged with its sheet and its spreadsheet row number
      (header is row 1, so data row `i` is row `i + 2`). */
  datatype ValidationError = ValidationError(sheet: string, row: nat, error: string)

  /** A sheet as the component keeps it: decoded rows and that sheet's errors. */
  datatype SheetData = SheetData(name: string, data: seq<Row>, errors: seq<ValidationError>)

  /** What the spreadsheet decoder yields for one worksheet. */
  datatype ParsedSheet = ParsedSheet(name: string, rows: seq<Row>)

  /** A dropped file: its name, and the decoded workbook, or None when
      decoding throws. */
  datatype DroppedFile = DroppedFile(name: string, workbook: Option<seq<ParsedSheet>>)

  /** The component state `sheets`, `selectedSheet`, `errors`. */
  datatype Uploader = Uploader(sheets: seq<SheetData>, selected: string, errors: seq<ValidationError>)

  /** The body sent to the import endpoint. */
  datatype ImportBody = ImportBody(data: seq<Row>, sheet: string)

  const Initial: Uploader := Uploader([], "", [])

  /** The row check the uploader runs: messages for a row and its row number. */
  type Validator = (Row, nat) -> seq<string>

  /** `validateRow` under a given runtime environment. */
  function RowValidator(env: Env): Validator {
    (row: Row, n: nat) => ValidateRow(env, row, n)
  }

  /** Row number of the data row at position `i`. */
  function RowNumber(i: nat): nat {
    i + 2
  }

  /** `rowErrors.map(error => ({sheet, row, error}))`. */
  function Tag(sheet: string, n: nat, msgs: seq<string>): (es: seq<ValidationError>)
    ensures |es| == |msgs|
    ensures forall j :: 0 <= j < |es| ==> es[j] == ValidationError(sheet, n, msgs[j])
  {
    if |msgs| == 0 then [] else [ValidationError(sheet, n, msgs[0])] + Tag(sheet, n, msgs[1..])
  }

  /** The tagged errors of the data row at position `i`. */
  function RowErrors(validate: Validator, sheet: string, rows: seq<Row>, i: nat): seq<ValidationError>
    requires i < |rows|
  {
    Tag(sheet, RowNumber(i), validate(rows[i], RowNumber(i)))
  }

  /** `sheet.errors` after the first `k` rows: the per-row errors concatenated
      in row order. */
  function SheetErrors(validate: Validator, sheet: string, rows: seq<Row>, k: nat): seq<ValidationError>
    requires k <= |rows|
  {
    if k == 0 then [] else SheetErrors(validate, sheet, rows, k - 1) + RowErrors(validate, sheet, rows, k - 1)
  }

  /** What one sheet adds to the global list after its first `k` rows: every
      row that has errors re-appends the whole of `sheet.errors` so far. */
  function Cumulative(validate: Validator, sheet: string, rows: seq<Row>, k: nat): seq<ValidationError>
    requires k <= |rows|
  {
    if k == 0 then []
    else Cumulative(validate, sheet, rows, k - 1)
         + (if |validate(rows[k - 1], RowNumber(k - 1))| > 0
            then SheetErrors(validate, sheet, rows, k) else [])
  }

  function AllSheetErrors(validate: Validator, p: ParsedSheet): seq<ValidationError> {
    SheetErrors(validate, p.name, p.rows, |p.rows|)
  }

  /** The global `allErrors` list over a workbook, sheet by sheet. */
  function GlobalErrors(validate: Validator, ws: seq<ParsedSheet>): seq<ValidationError> {
    if |ws| == 0 then []
    else GlobalErrors(validate, ws[..|ws| - 1])
         + Cumulative(validate, ws[|ws| - 1].name, ws[|ws| - 1].rows, |ws[|ws| - 1].rows|)
  }

  /** The inner `forEach` of `onDrop` over one sheet's rows: on failure push
      the tagged errors onto `sheet.errors`, then push the whole of
      `sheet.errors` onto the global list. Returns the final `sheet.errors`
      and what the sheet appended to the global list. */
  method ValidateSheet(validate: Validator, name: string, rows: seq<Row>) returns (errs: seq<ValidationError>, added: seq<ValidationError>)
    ensures errs == SheetErrors(validate, name, rows, |rows|)
    ensures added == Cumulative(validate, name, rows, |rows|)
  {
    errs := [];
    added := [];
    var i := 0;
    while i < |rows|
      invariant 0 <= i <= |rows|
      invariant errs == SheetErrors(validate, name, rows, i)
      invariant added == Cumulative(validate, name, rows, i)
    {
      var rowErrors := validate(rows[i], RowNumber(i));
      assert SheetErrors(validate, name, rows, i + 1) == errs + Tag(name, RowNumber(i), rowErrors);
      if |rowErrors| > 0 {
        errs := errs + Tag(name, RowNumber(i), rowErrors);
        added := added + errs;
      } else {
        assert Tag(name, RowNumber(i), rowErrors) == [];
      }
      assert Cumulative(validate, name, rows, i + 1)
             == Cumulative(validate, name, rows, i) + (if |rowErrors| > 0 then errs else []);
      i := i + 1;
    }
  }

  /** The `forEach` loops of `onDrop` as written: each sheet in turn, its
      contribution appended to the global list. */
  method ValidateWorkbook(validate: Validator, ws: seq<ParsedSheet>) returns (sheets: seq<SheetData>, all: seq<ValidationError>)
    ensures |sheets| == |ws|
    ensures forall s :: 0 <= s < |ws| ==>
              sheets[s] == SheetData(ws[s].name, ws[s].rows, AllSheetErrors(validate, ws[s]))
    ensures all == GlobalErrors(validate, ws)
  {
    sheets := [];
    all := [];
    var s := 0;
    while s < |ws|
      invariant 0 <= s <= |ws|
      invariant |sheets| == s
      invariant forall t :: 0 <= t < s ==>
                  sheets[t] == SheetData(ws[t].name, ws[t].rows, AllSheetErrors(validate, ws[t]))
      invariant all == GlobalErrors(validate, ws[..s])
    {
      var errs, added := ValidateSheet(validate, ws[s].name, ws[s].rows);
      sheets := sheets + [SheetData(ws[s].name, ws[s].rows, errs)];
      all := all + added;
      assert ws[..s + 1][..s] == ws[..s];
      s := s + 1;
    }
    assert ws[..|ws|] == ws;
  }

  /** `sheetsData[0]?.name || ''`. */
  function FirstSheetName(ws: seq<ParsedSheet>): (name: string)
    ensures |ws| == 0 ==> name == ""
    ensures |ws| > 0 ==> name == ws[0].name
  {
    if |ws| > 0 && ws[0].name != "" then ws[0].name else ""
  }

  /** `onDrop`: only the first dropped file counts; a missing file, a name not
      ending in `.xlsx` or a decoding failure leaves the state untouched;
      otherwise the state is replaced by the validated workbook and the first
      sheet is selected. */
  method OnDrop(env: Env, st: Uploader, files: seq<DroppedFile>) returns (st': Uploader)
    ensures |files| == 0 || !EndsWith(files[0].name, ".xlsx") || files[0].workbook.None? ==> st' == st
    ensures |files| > 0 && EndsWith(files[0].name, ".xlsx") && files[0].workbook.Some? ==>
              var ws := files[0].workbook.value;
              && |st'.sheets| == |ws|
              && (forall s :: 0 <= s < |ws| ==>
                    st'.sheets[s] == SheetData(ws[s].name, ws[s].rows, AllSheetErrors(RowValidator(env), ws[s])))
              && st'.errors == GlobalErrors(RowValidator(env), ws)
              && st'.selected == (if |ws| > 0 then ws[0].name else "")
  {
    if |files| == 0 || !EndsWith(files[0].name, ".xlsx") {
      return st;
    }
    match files[0].workbook {
      case None =>
        st' := st;
      case Some(ws) =>
        var sheets, all := ValidateWorkbook(RowValidator(env), ws);
        st' := Uploader(sheets, FirstSheetName(ws), all);
    }
  }

  /** The `<select>` change handler. */
  function SelectSheet(st: Uploader, name: string): (st': Uploader)
    ensures st'.sheets == st.sheets && st'.errors == st.errors
    ensures st'.selected == name
  {
    st.(selected := name)
  }

  /** `sheets.find(sheet => sheet.name === name)`: the first sheet so named. */
  function FindSheet(sheets: seq<SheetData>, name: string): (r: Option<SheetData>)
    ensures r.None? <==> forall s :: 0 <= s < |sheets| ==> sheets[s].name != name
    ensures r.Some? ==> exists s :: 0 <= s < |sheets| && sheets[s] == r.value && r.value.name == name
                          && forall t :: 0 <= t < s ==> sheets[t].name != name
  {
    if |sheets| == 0 then None
    else if sheets[0].name == name then Some(sheets[0])
    else
      var r := FindSheet(sheets[1..], name);
      if r.Some? then
        var s :| 0 <= s < |sheets[1..]| && sheets[1..][s] == r.value && r.value.name == name
                 && forall t :: 0 <= t < s ==> sheets[1..][t].name != name;
        assert sheets[s + 1] == r.value;
        r
      else r
  }

  /** `data.filter((row, index) => !validateRow(row, index + 2).length)` over
      the first `k` rows. */
  function ValidRows(validate: Validator, rows: seq<Row>, k: nat): (kept: seq<Row>)
    requires k <= |rows|
    ensures |kept| <= k
    ensures forall r :: r in kept ==>
              exists i :: 0 <= i < k && rows[i] == r && validate(rows[i], RowNumber(i)) == []
  {
    if k == 0 then []
    else ValidRows(validate, rows, k - 1)
         + (if validate(rows[k - 1], RowNumber(k - 1)) == [] then [rows[k - 1]] else [])
  }

  /** The filter as a loop that also reports where each kept row came from:
      the kept rows are exactly the error-free rows, in their original order. */
  method SelectValidRows(validate: Validator, rows: seq<Row>) returns (kept: seq<Row>, from: seq<nat>)
    ensures kept == ValidRows(validate, rows, |rows|)
    ensures |kept| == |from|
    ensures forall j :: 0 <= j < |from| ==> from[j] < |rows| && kept[j] == rows[from[j]]
    ensures forall j, j' :: 0 <= j < j' < |from| ==> from[j] < from[j']
    ensures forall i :: 0 <= i < |rows| ==> (i in from <==> validate(rows[i], RowNumber(i)) == [])
  {
    kept := [];
    from := [];
    var i := 0;
    while i < |rows|
      invariant 0 <= i <= |rows|
      invariant kept == ValidRows(validate, rows, i)
      invariant |kept| == |from|
      invariant forall j :: 0 <= j < |from| ==> from[j] < i && kept[j] == rows[from[j]]
      invariant forall j, j' :: 0 <= j < j' < |from| ==> from[j] < from[j']
      invariant forall x :: 0 <= x < i ==> (x in from <==> validate(rows[x], RowNumber(x)) == [])
    {
      var valid := validate(rows[i], RowNumber(i)) == [];
      assert ValidRows(validate, rows, i + 1) == kept + (if valid then [rows[i]] else []);
      if valid {
        kept := kept + [rows[i]];
        from := from + [i];
      }
      i := i + 1;
    }
  }

  /** `handleImport`: the request body it would send, or None when no request
      is made (no sheet has the selected name, or no row of it is free of
      errors). The rows come from the parsed `sheets`, not from the review
      table's working copy. */
  function HandleImport(env: Env, st: Uploader): (req: Option<ImportBody>)
    ensures req.None? <==>
              FindSheet(st.sheets, st.selected).None?
              || ValidRows(RowValidator(env), FindSheet(st.sheets, st.selected).value.data,
                           |FindSheet(st.sheets, st.selected).value.data|) == []
    ensures req.Some? ==>
              && req.value.sheet == st.selected
              && req.value.data == ValidRows(RowValidator(env), FindSheet(st.sheets, st.selected).value.data,
                                             |FindSheet(st.sheets, st.selected).value.data|)
  {
    match FindSheet(st.sheets, st.selected)
    case None => None
    case Some(sheet) =>
      var valid := ValidRows(RowValidator(env), sheet.data, |sheet.data|);
      if |valid| == 0 then None else Some(ImportBody(valid, st.selected))
  }

  /** Every row that is sent is error-free at its original position. */
  lemma ImportSendsOnlyValidRows(env: Env, st: Uploader)
    requires HandleImport(env, st).Some?
    ensures var sheet := FindSheet(st.sheets, st.selected).value;
            forall r :: r in HandleImport(env, st).value.data ==>
              exists i :: 0 <= i < |sheet.data| && sheet.data[i] == r
                          && ValidateRow(env, sheet.data[i], RowNumber(i)) == []
  {
  }

  /** A sheet whose every row has an error produces no request. */
  lemma AllInvalidMeansNoRequest(env: Env, st: Uploader)
    requires FindSheet(st.sheets, st.selected).Some?
    requires var rows := FindSheet(st.sheets, st.selected).value.data;
             forall i :: 0 <= i < |rows| ==> ValidateRow(env, rows[i], RowNumber(i)) != []
    ensures HandleImport(env, st).None?
  {
    var rows := FindSheet(st.sheets, st.selected).value.data;
    var validate := RowValidator(env);
    forall i | 0 <= i < |rows| ensures validate(rows[i], RowNumber(i)) != [] {
      assert validate(rows[i], RowNumber(i)) == ValidateRow(env, rows[i], RowNumber(i));
    }
    NothingValidNothingKept(validate, rows, |rows|);
  }

  lemma {:induction false} NothingValidNothingKept(validate: Validator, rows: seq<Row>, k: nat)
    requires k <= |rows|
    requires forall i :: 0 <= i < k ==> validate(rows[i], RowNumber(i)) != []
    ensures ValidRows(validate, rows, k) == []
  {
    if k > 0 {
      NothingValidNothingKept(validate, rows, k - 1);
    }
  }

  /** Every entry of `sheet.errors` carries the sheet's name and the number of
      a row among the first `k`, and its text is a message that row's
      validation produced. */
  lemma {:induction false} SheetErrorsShape(validate: Validator, sheet: string, rows: seq<Row>, k: nat)
    requires k <= |rows|
    ensures forall e :: e in SheetErrors(validate, sheet, rows, k) ==>
              && e.sheet == sheet
              && exists i :: 0 <= i < k && e.row == RowNumber(i) && e.error in validate(rows[i], RowNumber(i))
  {
    if k > 0 {
      SheetErrorsShape(validate, sheet, rows, k - 1);
      var i := k - 1;
      forall e | e in RowErrors(validate, sheet, rows, i)
        ensures e.sheet == sheet && e.row == RowNumber(i) && e.error in validate(rows[i], RowNumber(i))
      {
        var msgs := validate(rows[i], RowNumber(i));
        var j :| 0 <= j < |msgs| && RowErrors(validate, sheet, rows, i)[j] == e;
      }
    }
  }

  /** Conversely, every message of every row among the first `k` is recorded
      in `sheet.errors` with the sheet's name and that row's number. */
  lemma {:induction false} SheetErrorsComplete(validate: Validator, sheet: string, rows: seq<Row>, k: nat, i: nat, msg: string)
    requires i < k <= |rows|
    requires msg in validate(rows[i], RowNumber(i))
    ensures ValidationError(sheet, RowNumber(i), msg) in SheetErrors(validate, sheet, rows, k)
  {
    if i == k - 1 {
      var msgs := validate(rows[i], RowNumber(i));
      var j :| 0 <= j < |msgs| && msgs[j] == msg;
      var here := RowErrors(validate, sheet, rows, i);
      assert here[j] == ValidationError(sheet, RowNumber(i), msg);
      assert SheetErrors(validate, sheet, rows, k) == SheetErrors(validate, sheet, rows, i) + here;
    } else {
      SheetErrorsComplete(validate, sheet, rows, k - 1, i, msg);
      assert SheetErrors(validate, sheet, rows, k)
             == SheetErrors(validate, sheet, rows, k - 1) + RowErrors(validate, sheet, rows, k - 1);
    }
  }

  /** The global list has the same elements as `sheet.errors`, only repeated. */
  lemma {:induction false} CumulativeSameElements(validate: Validator, sheet: string, rows: seq<Row>, k: nat)
    requires k <= |rows|
    ensures forall e :: e in Cumulative(validate, sheet, rows, k) <==> e in SheetErrors(validate, sheet, rows, k)
  {
    if k > 0 {
      CumulativeSameElements(validate, sheet, rows, k - 1);
      var before := Cumulative(validate, sheet, rows, k - 1);
      var prev := SheetErrors(validate, sheet, rows, k - 1);
      var now := SheetErrors(validate, sheet, rows, k);
      assert now == prev + RowErrors(validate, sheet, rows, k - 1);
      if |validate(rows[k - 1], RowNumber(k - 1))| > 0 {
        assert Cumulative(validate, sheet, rows, k) == before + now;
        forall e ensures e in before + now <==> e in now {
          assert e in before ==> e in prev;
        }
      } else {
        assert RowErrors(validate, sheet, rows, k - 1) == [];
        assert now == prev;
        assert Cumulative(validate, sheet, rows, k) == before;
      }
    }
  }

  /** The global list is never shorter than `sheet.errors`, it is empty exactly
      when no row has errors, and it is free of repeats only when at most one
      row has errors. */
  lemma {:induction false} CumulativeLength(validate: Validator, sheet: string, rows: seq<Row>, k: nat)
    requires k <= |rows|
    ensures |Cumulative(validate, sheet, rows, k)| >= |SheetErrors(validate, sheet, rows, k)|
    ensures |Cumulative(validate, sheet, rows, k)| == 0 <==> ErroringIn(validate, rows, 0, k) == 0
    ensures |Cumulative(validate, sheet, rows, k)| == |SheetErrors(validate, sheet, rows, k)|
            <==> ErroringIn(validate, rows, 0, k) <= 1
  {
    if k > 0 {
      CumulativeLength(validate, sheet, rows, k - 1);
      ErroringInStep(validate, rows, 0, k);
    }
  }

  /** Number of messages of the first `k` rows. */
  function MessageCount(validate: Validator, rows: seq<Row>, k: nat): nat
    requires k <= |rows|
  {
    if k == 0 then 0 else MessageCount(validate, rows, k - 1) + |validate(rows[k - 1], RowNumber(k - 1))|
  }

  /** Number of rows at positions `lo` to `hi - 1` that have at least one error. */
  function ErroringIn(validate: Validator, rows: seq<Row>, lo: nat, hi: nat): nat
    requires lo <= hi <= |rows|
    decreases hi - lo
  {
    if lo == hi then 0
    else (if |validate(rows[lo], RowNumber(lo))| > 0 then 1 else 0) + ErroringIn(validate, rows, lo + 1, hi)
  }

  /** The global contribution counted row by row rather than push by push:
      the messages of row `j` (for `j < m`) are appended once for every row
      from `j` to `k - 1` that has errors. */
  function RepeatedSize(validate: Validator, rows: seq<Row>, m: nat, k: nat): nat
    requires m <= k <= |rows|
  {
    if m == 0 then 0
    else RepeatedSize(validate, rows, m - 1, k)
         + |validate(rows[m - 1], RowNumber(m - 1))| * ErroringIn(validate, rows, m - 1, k)
  }

  /** `sheet.errors` holds one entry per message. */
  lemma {:induction false} SheetErrorsLength(validate: Validator, sheet: string, rows: seq<Row>, k: nat)
    requires k <= |rows|
    ensures |SheetErrors(validate, sheet, rows, k)| == MessageCount(validate, rows, k)
  {
    if k > 0 {
      SheetErrorsLength(validate, sheet, rows, k - 1);
    }
  }

  lemma {:induction false} ErroringInStep(validate: Validator, rows: seq<Row>, lo: nat, hi: nat)
    requires lo < hi <= |rows|
    ensures ErroringIn(validate, rows, lo, hi)
            == ErroringIn(validate, rows, lo, hi - 1) + (if |validate(rows[hi - 1], RowNumber(hi - 1))| > 0 then 1 else 0)
    decreases hi - lo
  {
    if lo < hi - 1 {
      ErroringInStep(validate, rows, lo + 1, hi);
    }
  }

  /** Extending the range by row `k - 1` adds that row's weight to every
      earlier row's messages. */
  lemma {:induction false} RepeatedSizeStep(validate: Validator, rows: seq<Row>, m: nat, k: nat)
    requires m < k <= |rows|
    ensures RepeatedSize(validate, rows, m, k)
            == RepeatedSize(validate, rows, m, k - 1)
               + (if |validate(rows[k - 1], RowNumber(k - 1))| > 0 then MessageCount(validate, rows, m) else 0)
  {
    if m > 0 {
      RepeatedSizeStep(validate, rows, m - 1, k);
      ErroringInStep(validate, rows, m - 1, k);
      var c := |validate(rows[m - 1], RowNumber(m - 1))|;
      var before := ErroringIn(validate, rows, m - 1, k - 1);
      if |validate(rows[k - 1], RowNumber(k - 1))| > 0 {
        assert c * (before + 1) == c * before + c;
      }
    }
  }

  /** The exact size of one sheet's contribution to the global list: each
      row's messages are counted once for every row from it onwards that has
      errors (with failing rows carrying `c1`, `c2`, ... messages, that is
      `c1 + (c1 + c2) + ...`). */
  lemma {:induction false} CumulativeSize(validate: Validator, sheet: string, rows: seq<Row>, k: nat)
    requires k <= |rows|
    ensures |Cumulative(validate, sheet, rows, k)| == RepeatedSize(validate, rows, k, k)
  {
    if k > 0 {
      CumulativeSize(validate, sheet, rows, k - 1);
      SheetErrorsLength(validate, sheet, rows, k);
      RepeatedSizeStep(validate, rows, k - 1, k);
      var c := |validate(rows[k - 1], RowNumber(k - 1))|;
      var before := Cumulative(validate, sheet, rows, k - 1);
      var rs := RepeatedSize(validate, rows, k, k);
      var rsPrev := RepeatedSize(validate, rows, k - 1, k);
      assert rs == rsPrev + c * ErroringIn(validate, rows, k - 1, k);
      if c > 0 {
        assert ErroringIn(validate, rows, k - 1, k) == 1;
        assert Cumulative(validate, sheet, rows, k) == before + SheetErrors(validate, sheet, rows, k);
        assert MessageCount(validate, rows, k) == MessageCount(validate, rows, k - 1) + c;
      } else {
        assert Cumulative(validate, sheet, rows, k) == before;
      }
    }
  }

  /** Two rows with one error each: the global list holds three entries, the
      first row's error twice. */
  lemma TwoFailingRowsDuplicate(validate: Validator, sheet: string, rows: seq<Row>)
    requires |rows| == 2
    requires |validate(rows[0], 2)| == 1 && |validate(rows[1], 3)| == 1
    ensures var g := Cumulative(validate, sheet, rows, 2);
            |g| == 3 && g[0] == g[1] && g[0] == ValidationError(sheet, 2, validate(rows[0], 2)[0])
  {
    var e0 := ValidationError(sheet, 2, validate(rows[0], 2)[0]);
    var e1 := ValidationError(sheet, 3, validate(rows[1], 3)[0]);
    assert SheetErrors(validate, sheet, rows, 1) == [e0];
    assert SheetErrors(validate, sheet, rows, 2) == [e0, e1];
    assert Cumulative(validate, sheet, rows, 1) == [e0];
    assert Cumulative(validate, sheet, rows, 2) == [e0, e0, e1];
  }

  /** Across the workbook, an error is in the global list exactly when it is in
      some sheet's `errors`. */
  lemma {:induction false} GlobalErrorsCoverSheets(validate: Validator, ws: seq<ParsedSheet>)
    ensures forall e :: e in GlobalErrors(validate, ws) <==>
              exists s :: 0 <= s < |ws| && e in AllSheetErrors(validate, ws[s])
  {
    if |ws| > 0 {
      var init := ws[..|ws| - 1];
      var last := ws[|ws| - 1];
      GlobalErrorsCoverSheets(validate, init);
      CumulativeSameElements(validate, last.name, last.rows, |last.rows|);
      forall e | e in GlobalErrors(validate, ws)
        ensures exists s :: 0 <= s < |ws| && e in AllSheetErrors(validate, ws[s])
      {
        if e in GlobalErrors(validate, init) {
          var s :| 0 <= s < |init| && e in AllSheetErrors(validate, init[s]);
          assert ws[s] == init[s];
        } else {
          assert e in AllSheetErrors(validate, ws[|ws| - 1]);
        }
      }
      forall e | exists s :: 0 <= s < |ws| && e in AllSheetErrors(validate, ws[s])
        ensures e in GlobalErrors(validate, ws)
      {
        var s :| 0 <= s < |ws| && e in AllSheetErrors(validate, ws[s]);
        if s < |ws| - 1 {
          assert ws[s] == init[s];
        }
      }
    }
  }

  /** The props of the review table: the selected sheet's rows (or none) and
      the errors whose sheet is the selected one. */
  function TableProps(st: Uploader): (props: (seq<Row>, seq<ValidationError>))
    ensures FindSheet(st.sheets, st.selected).Some? ==> props.0 == FindSheet(st.sheets, st.selected).value.data
    ensures FindSheet(st.sheets, st.selected).None? ==> props.0 == []
    ensures forall e :: e in props.1 <==> e in st.errors && e.sheet == st.selected
  {
    var data := match FindSheet(st.sheets, st.selected)
                case Some(s) => s.data
                case None => [];
    (data, ErrorsOfSheet(st.errors, st.selected))
  }

  /** `errors.filter(error => error.sheet === name)`: the errors of one sheet,
      in input order, duplicates kept. */
  function ErrorsOfSheet(errors: seq<ValidationError>, name: string): (r: seq<ValidationError>)
    ensures |r| <= |errors|
    ensures forall e :: e in r <==> e in errors && e.sheet == name
  {
    if |errors| == 0 then []
    else
      var init := errors[..|errors| - 1];
      var last := errors[|errors| - 1];
      assert errors == init + [last];
      ErrorsOfSheet(init, name) + (if last.sheet == name then [last] else [])
  }
}
