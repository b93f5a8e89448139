/** The pipeline end to end on a small workbook: load, validate, import. */
module Pipeline {
  import opened JsValues
  import opened Validation
  import opened Upload

  /** A complete row dated `today`, and one with an empty Name. */
  function GoodRow(today: Cell): Row {
    map["Name" := Str("A"), "Amount" := Num(100), "Date" := today, "Verified" := Str("Yes")]
  }

  function BadRow(today: Cell): Row {
    map["Name" := Str(""), "Amount" := Num(50), "Date" := today]
  }

  /** The complete row passes every rule. */
  lemma GoodRowPasses(env: Env, time: int, year: int)
    ensures ValidateRow(env, GoodRow(DateCell(ValidDate(time, year, env.currentMonth))), 2) == []
  {
    var today := DateCell(ValidDate(time, year, env.currentMonth));
    assert Field(GoodRow(today), "Name") == Str("A");
    assert Field(GoodRow(today), "Amount") == Num(100);
    assert Field(GoodRow(today), "Date") == today;
    assert Checks(env, GoodRow(today)) == [];
  }

  /** The row with an empty name, as row 3, gets only the Name message. */
  lemma BadRowMessage(env: Env, time: int, year: int)
    ensures ValidateRow(env, BadRow(DateCell(ValidDate(time, year, env.currentMonth))), 3)
            == ["Row 3: Name is required"]
  {
    var today := DateCell(ValidDate(time, year, env.currentMonth));
    assert Field(BadRow(today), "Name") == Str("");
    assert Field(BadRow(today), "Amount") == Num(50);
    assert Field(BadRow(today), "Date") == today;
    assert Checks(env, BadRow(today)) == [NameRequired];
    assert NatToString(3) == "3";
    assert RowPrefix(3) == "Row 3: ";
    assert Message(3, NameRequired) == "Row 3: " + "Name is required";
    assert "Row 3: " + "Name is required" == "Row 3: Name is required";
  }

  /** A sheet "Jan" with a complete row dated this month and a row with an
      empty name: row 3's missing name is the only error, in the sheet and in
      the global list, and only the first row passes the import filter. */
  lemma JanuaryExample(env: Env, time: int, year: int)
    ensures var today := DateCell(ValidDate(time, year, env.currentMonth));
            var ws := [ParsedSheet("Jan", [GoodRow(today), BadRow(today)])];
            && AllSheetErrors(RowValidator(env), ws[0]) == [ValidationError("Jan", 3, "Row 3: Name is required")]
            && GlobalErrors(RowValidator(env), ws) == [ValidationError("Jan", 3, "Row 3: Name is required")]
            && ValidRows(RowValidator(env), ws[0].rows, 2) == [GoodRow(today)]
  {
    var today := DateCell(ValidDate(time, year, env.currentMonth));
    var good := GoodRow(today);
    var bad := BadRow(today);
    var rows := [good, bad];
    var ws := [ParsedSheet("Jan", rows)];
    var validate := RowValidator(env);
    GoodRowPasses(env, time, year);
    BadRowMessage(env, time, year);
    assert validate(good, 2) == [];
    assert validate(bad, 3) == ["Row 3: Name is required"];
    var err := ValidationError("Jan", 3, "Row 3: Name is required");
    assert SheetErrors(validate, "Jan", rows, 1) == [];
    assert SheetErrors(validate, "Jan", rows, 2) == [err];
    assert Cumulative(validate, "Jan", rows, 1) == [];
    assert Cumulative(validate, "Jan", rows, 2) == [err];
    assert ws[..0] == [];
    assert ValidRows(validate, rows, 1) == [good];
  }

  /** Dropping `Jan.xlsx` on the empty uploader and pressing Import: the sheet
      is selected, row 3's missing name is the only error, and the request
      carries only the first row. */
  method JanuaryDropAndImport(env: Env, time: int, year: int) returns (st: Uploader, req: Option<ImportBody>)
    ensures var today := DateCell(ValidDate(time, year, env.currentMonth));
            && st.selected == "Jan"
            && st.errors == [ValidationError("Jan", 3, "Row 3: Name is required")]
            && req == Some(ImportBody([GoodRow(today)], "Jan"))
  {
    var today := DateCell(ValidDate(time, year, env.currentMonth));
    var ws := [ParsedSheet("Jan", [GoodRow(today), BadRow(today)])];
    JanuaryExample(env, time, year);
    assert EndsWith("Jan.xlsx", ".xlsx");
    st := OnDrop(env, Initial, [DroppedFile("Jan.xlsx", Some(ws))]);
    assert st.sheets[0].name == "Jan";
    assert FindSheet(st.sheets, "Jan") == Some(st.sheets[0]);
    req := HandleImport(env, st);
  }
}
