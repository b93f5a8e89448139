/** The import endpoint: refuse when the database address is not configured,
    otherwise turn each received row into a document for the store. */
module ImportRoute {
  import opened JsValues
  import opened Validation
  import DataTable

  /** The persisted shape. `name` and `amount` are TypeScript casts, so the
      cells are stored as received. */
  datatype Document = Document(name: Cell, amount: Cell, date: JsDate, verified: bool, sheetName: string)

  datatype Response = Success | ServerError(status: nat, message: string)

  /** What the handler answers, and the documents it hands to the store's bulk
      insert (empty when it never gets that far). */
  datatype PostOutcome = PostOutcome(response: Response, handedToStore: seq<Document>)

  const ConfigErrorMessage: string := "MongoDB URI not configured"
  const ImportErrorMessage: string := "Failed to import data"

  /** One element of `data.map(...)`. */
  function ToDocument(env: Env, sheet: string, row: Row): Document {
    Document(Field(row, "Name"), Field(row, "Amount"), ToDate(env, Field(row, "Date")),
             Field(row, "Verified") == Str("Yes"), sheet)
  }

  /** `data.map(row => ({...}))`: one document per row, in order. */
  function Documents(env: Env, data: seq<Row>, sheet: string): (docs: seq<Document>)
    ensures |docs| == |data|
    ensures forall i :: 0 <= i < |data| ==> docs[i] == ToDocument(env, sheet, data[i])
  {
    if |data| == 0 then [] else [ToDocument(env, sheet, data[0])] + Documents(env, data[1..], sheet)
  }

  /** `POST`. `mongoUri` is the configured address (None when unset); the
      connection attempt and the bulk insert are external, so their success is
      given as `connects` and `inserts`. */
  function Post(env: Env, mongoUri: Option<string>, data: seq<Row>, sheet: string,
                connects: bool, inserts: bool): (out: PostOutcome)
    ensures mongoUri.None? || mongoUri == Some("") ==>
              out == PostOutcome(ServerError(500, ConfigErrorMessage), [])
    ensures mongoUri.Some? && mongoUri != Some("") && !connects ==>
              out == PostOutcome(ServerError(500, ImportErrorMessage), [])
    ensures mongoUri.Some? && mongoUri != Some("") && connects && !inserts ==>
              out.response == ServerError(500, ImportErrorMessage)
    ensures out.response.Success? <==> mongoUri.Some? && mongoUri != Some("") && connects && inserts
    ensures out.handedToStore != [] ==> |out.handedToStore| == |data|
  {
    if mongoUri.None? || mongoUri.value == "" then
      PostOutcome(ServerError(500, ConfigErrorMessage), [])
    else if !connects then
      PostOutcome(ServerError(500, ImportErrorMessage), [])
    else
      var docs := Documents(env, data, sheet);
      PostOutcome(if inserts then Success else ServerError(500, ImportErrorMessage), docs)
  }

  /** With a configured store, the documents handed over are the received rows,
      one each, in order: names and amounts copied, the request's sheet name on
      each, and `verified` set exactly for the string "Yes". */
  lemma DocumentsFollowRows(env: Env, uri: string, data: seq<Row>, sheet: string, inserts: bool)
    requires uri != ""
    ensures var docs := Post(env, Some(uri), data, sheet, true, inserts).handedToStore;
            && |docs| == |data|
            && forall i :: 0 <= i < |data| ==>
                 && docs[i].name == Field(data[i], "Name")
                 && docs[i].amount == Field(data[i], "Amount")
                 && docs[i].sheetName == sheet
                 && (docs[i].verified <==> Field(data[i], "Verified") == Str("Yes"))
  {
  }

  /** Strict equality: "yes", `true`, "Yes " and an absent column all persist
      as unverified. */
  lemma VerifiedOnlyForExactYes(env: Env, sheet: string, row: Row)
    requires Field(row, "Verified") in {Str("yes"), Str("Yes "), Bool(true), Undefined}
    ensures !ToDocument(env, sheet, row).verified
  {
  }

  /** A row whose Verified cell is the text "No" is shown as "Yes" in the table
      but persisted as not verified. */
  lemma ShownVerifiedButStoredUnverified(env: Env, sheet: string, row: Row)
    requires Field(row, "Verified") == Str("No")
    ensures DataTable.VerifiedLabel(row) == "Yes"
    ensures !ToDocument(env, sheet, row).verified
  {
  }
}
