/** The error panel: errors grouped by sheet with a `reduce` into an object
    (keys in first-appearance order), each shown as `Row {row}: {error}`. */
module ErrorDisplay {
  import opened JsValues
  import opened Validation
  import opened Upload

  /** The accumulator object: its keys in insertion order, and the key-to-list
      mapping. */
  datatype Groups = Groups(keys: seq<string>, bySheet: map<string, seq<ValidationError>>)

  predicate Distinct(keys: seq<string>) {
    forall i, j :: 0 <= i < j < |keys| ==> keys[i] != keys[j]
  }

  /** Keys are listed once each and are exactly the mapped keys. */
  ghost predicate WellFormed(g: Groups) {
    Distinct(g.keys) && (forall k :: k in g.bySheet <==> k in g.keys)
  }

  /** One step of the reduce: create the sheet's list if missing, then push. */
  function AddError(g: Groups, e: ValidationError): Groups {
    if e.sheet !in g.bySheet then Groups(g.keys + [e.sheet], g.bySheet[e.sheet := [e]])
    else Groups(g.keys, g.bySheet[e.sheet := g.bySheet[e.sheet] + [e]])
  }

  /** `errors.reduce(..., {})`. */
  function GroupBySheet(errors: seq<ValidationError>): Groups {
    if |errors| == 0 then Groups([], map[])
    else AddError(GroupBySheet(errors[..|errors| - 1]), errors[|errors| - 1])
  }

  /** Sheet names in order of first appearance: the reference for the keys. */
  function SheetsInOrder(errors: seq<ValidationError>): seq<string> {
    if |errors| == 0 then []
    else
      var init := SheetsInOrder(errors[..|errors| - 1]);
      if errors[|errors| - 1].sheet in init then init else init + [errors[|errors| - 1].sheet]
  }

  /** The keys are the sheets in first-appearance order, each sheet's group is
      that sheet's errors in input order (duplicates kept), and no group is
      empty. */
  lemma {:induction false} GroupBySheetCorrect(errors: seq<ValidationError>)
    ensures var g := GroupBySheet(errors);
            && WellFormed(g)
            && g.keys == SheetsInOrder(errors)
            && (forall k :: k in g.bySheet ==> g.bySheet[k] == ErrorsOfSheet(errors, k) && |g.bySheet[k]| > 0)
  {
    if |errors| > 0 {
      var init := errors[..|errors| - 1];
      var e := errors[|errors| - 1];
      GroupBySheetCorrect(init);
      var g0 := GroupBySheet(init);
      var g := GroupBySheet(errors);
      assert g == AddError(g0, e);
      forall k | k in g.bySheet
        ensures g.bySheet[k] == ErrorsOfSheet(errors, k) && |g.bySheet[k]| > 0
      {
        if k == e.sheet && e.sheet !in g0.bySheet {
          assert ErrorsOfSheet(init, k) == [] by {
            OfMissingSheet(init, k);
          }
        }
      }
      if e.sheet !in g0.bySheet {
        forall i, j | 0 <= i < j < |g.keys| ensures g.keys[i] != g.keys[j] {
          if j == |g.keys| - 1 {
            assert g.keys[i] in g0.keys;
          }
        }
      }
    }
  }

  /** A sheet that is not among the keys has no errors. */
  lemma {:induction false} OfMissingSheet(errors: seq<ValidationError>, sheet: string)
    requires sheet !in SheetsInOrder(errors)
    ensures ErrorsOfSheet(errors, sheet) == []
  {
    if |errors| > 0 {
      OfMissingSheet(errors[..|errors| - 1], sheet);
    }
  }

  /** Every error lands in exactly the group of its own sheet. */
  lemma ErrorLandsInOwnGroup(errors: seq<ValidationError>, e: ValidationError)
    ensures var g := GroupBySheet(errors);
            && (e in errors ==> e.sheet in g.bySheet && e in g.bySheet[e.sheet])
            && (forall k :: k in g.bySheet && e in g.bySheet[k] ==> k == e.sheet && e in errors)
  {
    GroupBySheetCorrect(errors);
    if e in errors {
      KeysCoverSheets(errors, e);
    }
  }

  lemma {:induction false} KeysCoverSheets(errors: seq<ValidationError>, e: ValidationError)
    requires e in errors
    ensures e.sheet in SheetsInOrder(errors)
  {
    var init := errors[..|errors| - 1];
    assert errors == init + [errors[|errors| - 1]];
    if e in init {
      KeysCoverSheets(init, e);
    }
  }

  /** Total size of the groups listed under `keys`. */
  function SizeOver(errors: seq<ValidationError>, keys: seq<string>): nat {
    if |keys| == 0 then 0 else |ErrorsOfSheet(errors, keys[0])| + SizeOver(errors, keys[1..])
  }

  /** Number of positions of `keys` holding `k`. */
  function Occurrences(keys: seq<string>, k: string): nat {
    if |keys| == 0 then 0 else (if keys[0] == k then 1 else 0) + Occurrences(keys[1..], k)
  }

  lemma {:induction false} DistinctOccursOnce(keys: seq<string>, k: string)
    requires Distinct(keys) && k in keys
    ensures Occurrences(keys, k) == 1
  {
    if keys[0] == k {
      NotInOccursNever(keys[1..], k);
    } else {
      DistinctOccursOnce(keys[1..], k);
    }
  }

  lemma {:induction false} NotInOccursNever(keys: seq<string>, k: string)
    requires k !in keys
    ensures Occurrences(keys, k) == 0
  {
    if |keys| > 0 {
      NotInOccursNever(keys[1..], k);
    }
  }

  /** Adding one error grows the sum over the keys by the number of times its
      sheet is listed. */
  lemma {:induction false} SizeOverStep(errors: seq<ValidationError>, e: ValidationError, keys: seq<string>)
    ensures SizeOver(errors + [e], keys) == SizeOver(errors, keys) + Occurrences(keys, e.sheet)
  {
    if |keys| > 0 {
      SizeOverStep(errors, e, keys[1..]);
      assert (errors + [e])[..|errors + [e]| - 1] == errors;
    }
  }

  /** The group sizes add up to the number of errors: nothing lost, nothing
      added. */
  lemma {:induction false} GroupSizesSum(errors: seq<ValidationError>, keys: seq<string>)
    requires Distinct(keys)
    requires forall e :: e in errors ==> e.sheet in keys
    ensures SizeOver(errors, keys) == |errors|
  {
    if |errors| == 0 {
      SizeOverOfNothing(keys);
    } else {
      var init := errors[..|errors| - 1];
      var e := errors[|errors| - 1];
      assert errors == init + [e];
      GroupSizesSum(init, keys);
      SizeOverStep(init, e, keys);
      DistinctOccursOnce(keys, e.sheet);
    }
  }

  lemma {:induction false} SizeOverOfNothing(keys: seq<string>)
    ensures SizeOver([], keys) == 0
  {
    if |keys| > 0 {
      SizeOverOfNothing(keys[1..]);
    }
  }

  /** Sum of the sizes of the groups listed under `keys`. */
  function GroupSizes(g: Groups, keys: seq<string>): nat {
    if |keys| == 0 then 0
    else (if keys[0] in g.bySheet then |g.bySheet[keys[0]]| else 0) + GroupSizes(g, keys[1..])
  }

  lemma {:induction false} GroupSizesAreSizeOver(errors: seq<ValidationError>, g: Groups, keys: seq<string>)
    requires forall k :: k in keys ==> k in g.bySheet && g.bySheet[k] == ErrorsOfSheet(errors, k)
    ensures GroupSizes(g, keys) == SizeOver(errors, keys)
  {
    if |keys| > 0 {
      assert keys[0] in keys;
      GroupSizesAreSizeOver(errors, g, keys[1..]);
    }
  }

  /** The group sizes add up to the number of errors: the panel lists every
      error once per occurrence, none lost and none added. */
  lemma PanelShowsEveryError(errors: seq<ValidationError>)
    ensures var g := GroupBySheet(errors);
            GroupSizes(g, g.keys) == |errors|
  {
    GroupBySheetCorrect(errors);
    var g := GroupBySheet(errors);
    forall e | e in errors ensures e.sheet in SheetsInOrder(errors) {
      KeysCoverSheets(errors, e);
    }
    GroupSizesSum(errors, g.keys);
    GroupSizesAreSizeOver(errors, g, g.keys);
  }

  /** One list item: `Row {error.row}: {error.error}`. */
  function Line(e: ValidationError): string {
    "Row " + NatToString(e.row) + ": " + e.error
  }

  /** The panel: per key, in key order, the sheet name and its lines. */
  function Render(errors: seq<ValidationError>): (panel: seq<(string, seq<string>)>)
    ensures |panel| == |GroupBySheet(errors).keys|
  {
    var g := GroupBySheet(errors);
    GroupBySheetCorrect(errors);
    seq(|g.keys|, i requires 0 <= i < |g.keys| =>
      (g.keys[i], seq(|g.bySheet[g.keys[i]]|, j requires 0 <= j < |g.bySheet[g.keys[i]]| =>
                    Line(g.bySheet[g.keys[i]][j]))))
  }

  /** Stored messages already start with "Row n: ", so every line shown for a
      validation error of a sheet carries the prefix twice. */
  lemma LinesAreDoublePrefixed(env: Env, sheet: string, rows: seq<Row>, e: ValidationError)
    requires e in AllSheetErrors(RowValidator(env), ParsedSheet(sheet, rows))
    ensures e.row >= 2
    ensures exists k :: Line(e) == RowPrefix(e.row) + RowPrefix(e.row) + Text(k)
  {
    var validate := RowValidator(env);
    SheetErrorsShape(validate, sheet, rows, |rows|);
    var i :| 0 <= i < |rows| && e.row == RowNumber(i) && e.error in validate(rows[i], RowNumber(i));
    var n := RowNumber(i);
    assert validate(rows[i], n) == ValidateRow(env, rows[i], n);
    ValidateRowMessagesAreTagged(env, rows[i], n);
    var k :| Fires(env, rows[i], k) && e.error == RowPrefix(n) + Text(k);
    assert Line(e) == RowPrefix(e.row) + (RowPrefix(n) + Text(k));
  }
}
