/** The validation the inventory forms perform before anything is saved: the product form's
    expiry rule, the stock-update form's fields and the import form's file-name check. */
module Forms {
  import opened Text
  import opened Catalog

  /** Outcome of a form's `clean`: accepted, or the `ValidationError` message. */
  datatype Check = Pass | Fail(message: string)

  const ExpiryRequiredMessage := "Expiry date is required for perishable items."
  const ExpiryPastMessage := "Expiry date cannot be in the past."

  /** `ProductForm.clean` on the two fields it inspects, with `today` the current day.
      The perishable check comes first. */
  function CleanProduct(isPerishable: bool, expiryDate: Option<Day>, today: Day): (r: Check)
    ensures r == Pass <==> (isPerishable ==> expiryDate.Some?) && (expiryDate.Some? ==> expiryDate.value >= today)
    ensures isPerishable && expiryDate.None? ==> r == Fail(ExpiryRequiredMessage)
    ensures expiryDate.Some? && expiryDate.value < today ==> r == Fail(ExpiryPastMessage)
  {
    if isPerishable && expiryDate.None? then Fail(ExpiryRequiredMessage)
    else if expiryDate.Some? && expiryDate.value < today then Fail(ExpiryPastMessage)
    else Pass
  }

  /** A product the form accepts is not yet expired on the day it is saved, though it may
      already count as expiring soon. */
  lemma AcceptedProductNotExpired(p: Product, today: Day)
    requires CleanProduct(p.isPerishable, p.expiryDate, today) == Pass
    ensures p.isPerishable ==> p.expiryDate.Some? && p.expiryDate.value >= today
    ensures p.isPerishable && p.expiryDate.value == today ==> IsExpiringSoon(p, today)
  {
  }

  /** The raw fields of a stock-update request: the chosen movement type as submitted, the
      quantity after integer conversion (`None` when absent or not a number) and the reason. */
  datatype StockForm = StockForm(movementType: string, quantity: Option<int>, reason: string)

  /** The cleaned fields of a valid stock-update request. */
  datatype StockRequest = StockRequest(movementType: MovementType, quantity: int, reason: string)

  /** The choice field: one of the three stored codes. */
  function ParseMovementType(code: string): (t: Option<MovementType>)
    ensures t.Some? <==> code in {"in", "out", "adjustment"}
    ensures t.Some? ==> MovementCode(t.value) == code
  {
    if code == "in" then Some(In)
    else if code == "out" then Some(Out)
    else if code == "adjustment" then Some(Adjustment)
    else None
  }

  /** `StockUpdateForm.is_valid()` and its `cleaned_data`: a known movement type, a quantity of
      at least 1, and a reason that is not blank (the text field strips white space). */
  function CleanStockUpdate(f: StockForm): (r: Option<StockRequest>)
    ensures r.Some? <==>
      f.movementType in {"in", "out", "adjustment"} && f.quantity.Some? && f.quantity.value >= 1
      && Strip(f.reason) != ""
    ensures r.Some? ==>
      && MovementCode(r.value.movementType) == f.movementType
      && r.value.quantity == f.quantity.value >= 1
      && r.value.reason == Strip(f.reason) != ""
  {
    match ParseMovementType(f.movementType)
    case None => None
    case Some(t) =>
      if f.quantity.Some? && f.quantity.value >= 1 && Strip(f.reason) != "" then
        Some(StockRequest(t, f.quantity.value, Strip(f.reason)))
      else None
  }

  const CsvFormatMessage := "File must be CSV format."

  /** `ImportForm.clean_csv_file`: the upload's name must end in `.csv`, compared
      case-sensitively. */
  function CleanCsvFile(fileName: string): (r: Check)
    ensures r == Pass <==> EndsWith(fileName, ".csv")
    ensures r != Pass ==> r == Fail(CsvFormatMessage)
  {
    if EndsWith(fileName, ".csv") then Pass else Fail(CsvFormatMessage)
  }

  /** The messages of the file field's own checks, made before `clean_csv_file`. */
  const NoFileMessage := "No file was submitted. Check the encoding type on the form."
  const EmptyFileMessage := "The submitted file is empty."

  /** `ImportForm.is_valid()` for an upload named `fileName` of `size` bytes: the file field
      refuses a nameless or empty upload (it does not allow empty files), and only then does
      `clean_csv_file` look at the name. */
  function CleanImportForm(fileName: string, size: nat): (r: Check)
    ensures r == Pass <==> fileName != "" && size > 0 && CleanCsvFile(fileName) == Pass
    ensures fileName == "" ==> r == Fail(NoFileMessage)
    ensures fileName != "" && size == 0 ==> r == Fail(EmptyFileMessage)
    ensures fileName != "" && size > 0 ==> r == CleanCsvFile(fileName)
  {
    if fileName == "" then Fail(NoFileMessage)
    else if size == 0 then Fail(EmptyFileMessage)
    else CleanCsvFile(fileName)
  }

  /** An empty upload is refused before its name is looked at. */
  lemma EmptyUploadRefused(fileName: string)
    requires fileName != ""
    ensures CleanImportForm(fileName, 0) == Fail(EmptyFileMessage)
    ensures CleanImportForm(fileName + ".csv", 1) == Pass
  {
    assert (fileName + ".csv")[|fileName + ".csv"| - 4..] == ".csv";
  }

  /** The check is case-sensitive: an upper-case extension is refused. */
  lemma UpperCaseExtensionRefused()
    ensures CleanCsvFile("products.CSV") == Fail(CsvFormatMessage)
    ensures CleanCsvFile("products.csv") == Pass
  {
    assert "products.CSV"[8..] == ".CSV";
    assert "products.csv"[8..] == ".csv";
  }
}
