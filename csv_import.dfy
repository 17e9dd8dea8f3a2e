/** What `import_from_csv` does to the database and what it reports, as functions of the
    parsed file: each data row is validated, its numbers coerced with warnings, its category
    and suppliers found or created, and its product saved; a bad row is reported and the
    import goes on with the next. */
module CsvImport {
  import opened Text
  import opened Numbers
  import opened Catalog
  import opened CsvRows

  /** A message about data row `n` (the header is row 1). */
  function RowMessage(n: nat, text: string): (m: string)
    ensures StartsWith(m, "Row ")
  {
    "Row " + NatToString(n) + ": " + text
  }

  const NameRequired := "Product name is required"
  const SkuRequired := "Product SKU is required"
  const InvalidPrice := "Invalid price format, defaulting to 0"
  const NegativePrice := "Price cannot be negative, set to 0"
  const InvalidStock := "Invalid stock quantity, defaulting to 0"
  const NegativeStock := "Stock quantity cannot be negative, set to 0"
  const InvalidReorder := "Invalid reorder level, defaulting to 10"
  const NegativeReorder := "Reorder level cannot be negative, set to 10"
  const UnexpectedError := "Unexpected error - "
  const SupplierError := "Error processing suppliers: "
  const FileReadingError := "File reading error: "

  function DuplicateSku(sku: string): string {
    "Product with SKU '" + sku + "' already exists"
  }

  /** A coerced number and the warning its coercion gave, if any. */
  datatype Coerced = Coerced(value: int, warning: Option<string>)

  /** `unit_price`, in hundredths: a blank field is 0; otherwise the text is read as a float
      (0 with a warning if it is not a number or is negative) and stored with two places. */
  function PriceOf(text: string): (c: Coerced)
    ensures c.value >= 0
    ensures text == "" ==> c == Coerced(0, None)
    ensures c.warning.Some? <==> text != "" && (ParseDecimal(text).None? || ParseDecimal(text).value < 0.0)
    ensures text != "" && ParseDecimal(text).None? ==> c == Coerced(0, Some(InvalidPrice))
    ensures c.warning.Some? ==> c.value == 0
    ensures ParseDecimal(text).Some? && ParseDecimal(text).value < 0.0 && text != "" ==> c == Coerced(0, Some(NegativePrice))
    ensures c.warning.None? && text != "" ==> c.value == QuantizeCents(ParseDecimal(text).value)
  {
    if text == "" then Coerced(0, None)
    else
      match ParseDecimal(text)
      case None => Coerced(0, Some(InvalidPrice))
      case Some(x) => if x < 0.0 then Coerced(0, Some(NegativePrice)) else Coerced(QuantizeCents(x), None)
  }

  /** `quantity_in_stock`: a blank field is 0; otherwise the text is read as a float and
      truncated toward zero (0 with a warning if it is not a number or the result is negative). */
  function StockOf(text: string): (c: Coerced)
    ensures c.value >= 0
    ensures text == "" ==> c == Coerced(0, None)
    ensures c.warning.Some? <==> text != "" && (ParseDecimal(text).None? || Truncate(ParseDecimal(text).value) < 0)
    ensures text != "" && ParseDecimal(text).None? ==> c == Coerced(0, Some(InvalidStock))
    ensures c.warning.Some? ==> c.value == 0
    ensures ParseDecimal(text).Some? && Truncate(ParseDecimal(text).value) < 0 && text != "" ==>
      c == Coerced(0, Some(NegativeStock))
    ensures c.warning.None? && text != "" ==> c.value == Truncate(ParseDecimal(text).value)
  {
    if text == "" then Coerced(0, None)
    else
      match ParseDecimal(text)
      case None => Coerced(0, Some(InvalidStock))
      case Some(x) => if Truncate(x) < 0 then Coerced(0, Some(NegativeStock)) else Coerced(Truncate(x), None)
  }

  /** `reorder_level`: as the stock, but the default is 10. */
  function ReorderOf(text: string): (c: Coerced)
    ensures c.value >= 0
    ensures text == "" ==> c == Coerced(DefaultReorderLevel, None)
    ensures c.warning.Some? <==> text != "" && (ParseDecimal(text).None? || Truncate(ParseDecimal(text).value) < 0)
    ensures c.warning.Some? ==> c.value == DefaultReorderLevel
    ensures text != "" && ParseDecimal(text).None? ==> c == Coerced(DefaultReorderLevel, Some(InvalidReorder))
    ensures ParseDecimal(text).Some? && Truncate(ParseDecimal(text).value) < 0 && text != "" ==>
      c == Coerced(DefaultReorderLevel, Some(NegativeReorder))
    ensures c.warning.None? && text != "" ==> c.value == Truncate(ParseDecimal(text).value)
  {
    if text == "" then Coerced(DefaultReorderLevel, None)
    else
      match ParseDecimal(text)
      case None => Coerced(DefaultReorderLevel, Some(InvalidReorder))
      case Some(x) =>
        if Truncate(x) < 0 then Coerced(DefaultReorderLevel, Some(NegativeReorder)) else Coerced(Truncate(x), None)
  }

  /** A truncated value is accepted even when the text is negative, as long as it truncates to
      zero: `-0.5` is stock 0 without a warning, `-1` is 0 with one. */
  lemma NegativeFractionTruncatesToZero()
    ensures StockOf("-0.5") == Coerced(0, None)
  {
    assert ParseDecimal("-0.5") == Some(-0.5) by {
      var body := "0.5";
      assert "-0.5"[1..] == body;
      assert IndexOfEither(body, 'e', 'E') == 3;
      assert body[..3] == body;
      assert IndexOfEither(body, '.', '.') == 1;
      assert body[..1] == "0" && body[2..] == "5";
      assert "0"[..0] == [] && "5"[..0] == [];
      assert ParsePointed("0", "5") == Some(0.5);
    }
  }

  /** The number of coercions that gave a warning. */
  function CountWarned(ws: seq<Option<string>>): (k: nat)
    ensures k <= |ws|
  {
    if ws == [] then 0 else (if ws[0].Some? then 1 else 0) + CountWarned(ws[1..])
  }

  /** The warnings of a row, in the order price, stock, reorder level: one message naming the
      row for each coercion that gave a warning, and no other. */
  function Warnings(n: nat, ws: seq<Option<string>>): (r: seq<string>)
    ensures |r| == CountWarned(ws) && forall m <- r :: StartsWith(m, "Row ")
    ensures forall i :: 0 <= i < |ws| && ws[i].Some? ==> RowMessage(n, ws[i].value) in r
    ensures forall m <- r :: exists i :: 0 <= i < |ws| && ws[i].Some? && m == RowMessage(n, ws[i].value)
  {
    if ws == [] then []
    else
      var rest := Warnings(n, ws[1..]);
      var r := (if ws[0].Some? then [RowMessage(n, ws[0].value)] else []) + rest;
      assert forall i :: 1 <= i < |ws| ==> ws[i] == ws[1..][i - 1];
      r
  }

  /** The whole `suppliers` field is ignored when it is blank, is `nan`, or is `null` in any
      letter case. */
  predicate SuppliersGiven(text: string) {
    text != "" && text != "nan" && Lower(text) != "null"
  }

  /** The supplier names in the pieces of the field: stripped, without empty ones and `nan`. */
  function CleanNames(pieces: seq<string>): (names: seq<string>)
    ensures |names| <= |pieces|
    ensures forall nm <- names :: nm != "" && nm != "nan" && Strip(nm) == nm
  {
    if pieces == [] then []
    else
      var rest := CleanNames(pieces[1..]);
      var nm := Strip(pieces[0]);
      StripIdempotent(pieces[0]);
      if nm != "" && nm != "nan" then [nm] + rest else rest
  }

  /** The names are exactly the stripped pieces that are neither empty nor `nan`. */
  lemma {:induction false} CleanNamesExact(pieces: seq<string>)
    ensures forall nm <- CleanNames(pieces) :: exists p <- pieces :: Strip(p) == nm
    ensures forall p <- pieces :: Strip(p) != "" && Strip(p) != "nan" ==> Strip(p) in CleanNames(pieces)
  {
    if pieces != [] {
      var names := CleanNames(pieces);
      var rest := CleanNames(pieces[1..]);
      var first := Strip(pieces[0]);
      CleanNamesExact(pieces[1..]);
      assert names == if first != "" && first != "nan" then [first] + rest else rest;
      forall nm | nm in names
        ensures exists p <- pieces :: Strip(p) == nm
      {
        if nm in rest {
          var p :| p in pieces[1..] && Strip(p) == nm;
          assert p in pieces;
        } else {
          assert Strip(pieces[0]) == nm;
        }
      }
      forall p | p in pieces && Strip(p) != "" && Strip(p) != "nan"
        ensures Strip(p) in names
      {
        if p != pieces[0] {
          assert p in pieces[1..];
          assert Strip(p) in rest;
        }
      }
    }
  }

  /** The names of the `suppliers` field: split at commas. */
  function SupplierNames(text: string): (names: seq<string>)
    ensures forall nm <- names :: nm != "" && nm != "nan" && ',' !in nm && Strip(nm) == nm
  {
    var pieces := Split(text, ',');
    CleanNamesExact(pieces);
    forall p <- pieces {
      StripInfix(p);
    }
    CleanNames(pieces)
  }

  /** `s` with every `c` removed. */
  function Without(s: string, c: char): (r: string)
    ensures |r| <= |s| && c !in r
    ensures forall x <- r :: x in s
  {
    if s == [] then "" else (if s[0] == c then "" else [s[0]]) + Without(s[1..], c)
  }

  /** The e-mail given to a supplier created by the import: the name lower-cased, without
      spaces and dots, at `example.com`. */
  function PlaceholderEmail(name: string): (e: string)
    ensures EndsWith(e, "@example.com")
    ensures ' ' !in e[..|e| - 12] && '.' !in e[..|e| - 12]
  {
    var local := Without(Without(Lower(name), ' '), '.');
    var e := local + "@example.com";
    assert e[..|e| - 12] == local;
    e
  }

  function PlaceholderSupplier(name: string): Supplier {
    Supplier(name, PlaceholderEmail(name), "000-000-0000", "", "Unknown", "Unknown", "Unknown")
  }

  /** The error of inserting a supplier whose e-mail is taken (the database's wording). */
  const EmailTaken := "UNIQUE constraint failed: inventory_supplier.email"

  predicate EmailInUse(suppliers: map<string, Supplier>, email: string) {
    exists s <- suppliers :: suppliers[s].email == email
  }

  /** `product.suppliers.add(supplier)`. */
  function Link(db: Db, sku: string, name: string): (r: Db)
    requires sku in db.products
    ensures sku in r.products
  {
    db.(products := db.products[sku := db.products[sku].(suppliers := db.products[sku].suppliers + {name})])
  }

  /** Gets or creates each named supplier in turn and links it to the product. Creating one
      whose placeholder e-mail is already taken fails, which ends the loop with that error;
      the links made before it stay. */
  function LinkSuppliers(db: Db, sku: string, names: seq<string>): (r: (Db, Option<string>))
    requires sku in db.products
    ensures sku in r.0.products
    ensures r.1.Some? ==> r.1.value == EmailTaken
    ensures r.1.None? ==> forall nm <- names :: nm in r.0.suppliers && nm in r.0.products[sku].suppliers
    ensures r.0.categories == db.categories && r.0.movements == db.movements
    ensures r.0.products.Keys == db.products.Keys
    ensures forall k <- db.products :: k != sku ==> r.0.products[k] == db.products[k]
    ensures r.0.products[sku] == db.products[sku].(suppliers := r.0.products[sku].suppliers)
    ensures db.products[sku].suppliers <= r.0.products[sku].suppliers
    ensures forall s <- db.suppliers :: s in r.0.suppliers && r.0.suppliers[s] == db.suppliers[s]
    ensures forall s <- r.0.suppliers :: s in db.suppliers || (s in names && r.0.suppliers[s] == PlaceholderSupplier(s))
    decreases |names|
  {
    if names == [] then (db, None)
    else
      var name := names[0];
      if name in db.suppliers then LinkSuppliers(Link(db, sku, name), sku, names[1..])
      else if EmailInUse(db.suppliers, PlaceholderEmail(name)) then (db, Some(EmailTaken))
      else
        var db' := db.(suppliers := db.suppliers[name := PlaceholderSupplier(name)]);
        LinkSuppliers(Link(db', sku, name), sku, names[1..])
  }

  /** `Category.objects.get_or_create(name=...)` for a non-blank category field. */
  function WithCategory(db: Db, name: string): (r: Db)
    ensures name != "" ==> name in r.categories
    ensures r.products == db.products && r.suppliers == db.suppliers && r.movements == db.movements
    ensures forall c <- db.categories :: c in r.categories && r.categories[c] == db.categories[c]
    ensures forall c <- r.categories :: c in db.categories || (c == name && r.categories[c] == Category(name, ""))
  {
    if name == "" || name in db.categories then db
    else db.(categories := db.categories[name := Category(name, "")])
  }

  /** The product's category reference from the category field. */
  function CategoryRef(name: string): Option<string> {
    if name == "" then None else Some(name)
  }

  /** The effect of one row: the new database, the messages it added, and whether it counts as
      imported. */
  datatype RowOutcome = RowOutcome(db: Db, messages: seq<string>, created: bool)

  /** The product a valid row saves: no suppliers yet, not perishable, created by `user`. */
  function NewProduct(row: map<string, string>, user: string): (p: Product)
    ensures p.name == Field(row, "name") && p.sku == Field(row, "sku")
    ensures p.category == CategoryRef(Field(row, "category")) && p.suppliers == {}
    ensures p.description == Field(row, "description") && p.createdBy == Some(user)
    ensures p.unitPrice == PriceOf(Field(row, "unit_price")).value
    ensures p.quantityInStock == StockOf(Field(row, "quantity_in_stock")).value
    ensures p.reorderLevel == ReorderOf(Field(row, "reorder_level")).value
    ensures p.sku != "" ==> ValidProduct(p)
  {
    Product(Field(row, "name"), Field(row, "sku"), CategoryRef(Field(row, "category")), {},
            Field(row, "description"), PriceOf(Field(row, "unit_price")).value,
            StockOf(Field(row, "quantity_in_stock")).value, ReorderOf(Field(row, "reorder_level")).value,
            false, None, Some(user))
  }

  /** The coercion warnings of row `n`: one message naming the row per field whose value was
      invalid or negative, and no other. */
  function RowWarnings(n: nat, row: map<string, string>): (r: seq<string>)
    ensures |r| <= 3 && forall m <- r :: StartsWith(m, "Row ")
    ensures var price, stock, reorder := PriceOf(Field(row, "unit_price")).warning,
                                         StockOf(Field(row, "quantity_in_stock")).warning,
                                         ReorderOf(Field(row, "reorder_level")).warning;
      && |r| == (if price.Some? then 1 else 0) + (if stock.Some? then 1 else 0) + (if reorder.Some? then 1 else 0)
      && (price.Some? ==> RowMessage(n, price.value) in r)
      && (stock.Some? ==> RowMessage(n, stock.value) in r)
      && (reorder.Some? ==> RowMessage(n, reorder.value) in r)
      && (forall m <- r :: || (price.Some? && m == RowMessage(n, price.value))
                           || (stock.Some? && m == RowMessage(n, stock.value))
                           || (reorder.Some? && m == RowMessage(n, reorder.value)))
  {
    var price, stock, reorder := PriceOf(Field(row, "unit_price")).warning,
                                 StockOf(Field(row, "quantity_in_stock")).warning,
                                 ReorderOf(Field(row, "reorder_level")).warning;
    ThreeWarnings(n, price, stock, reorder);
    Warnings(n, [price, stock, reorder])
  }

  /** The messages of three possible warnings: one per warning given, and no other. */
  lemma ThreeWarnings(n: nat, a: Option<string>, b: Option<string>, c: Option<string>)
    ensures var r := Warnings(n, [a, b, c]);
      && |r| == (if a.Some? then 1 else 0) + (if b.Some? then 1 else 0) + (if c.Some? then 1 else 0)
      && (a.Some? ==> RowMessage(n, a.value) in r)
      && (b.Some? ==> RowMessage(n, b.value) in r)
      && (c.Some? ==> RowMessage(n, c.value) in r)
      && (forall m <- r :: || (a.Some? && m == RowMessage(n, a.value))
                           || (b.Some? && m == RowMessage(n, b.value))
                           || (c.Some? && m == RowMessage(n, c.value)))
  {
    var ws := [a, b, c];
    assert CountWarned(ws) == (if ws[0].Some? then 1 else 0) + CountWarned(ws[1..]);
    assert CountWarned(ws[1..]) == (if ws[1].Some? then 1 else 0) + CountWarned(ws[2..]);
    assert CountWarned(ws[2..]) == (if ws[2].Some? then 1 else 0) + CountWarned(ws[3..]);
  }

  /** The supplier step of row `n` for the saved product `sku`: the new database and the
      warning it adds, if linking failed. */
  function AttachSuppliers(db: Db, n: nat, sku: string, data: string): (r: (Db, seq<string>))
    requires sku in db.products
    ensures |r.1| <= 1 && forall m <- r.1 :: StartsWith(m, "Row ")
    ensures !SuppliersGiven(data) ==> r == (db, [])
    ensures SuppliersGiven(data) ==> (r.1 == [] <==> LinkSuppliers(db, sku, SupplierNames(data)).1.None?)
    ensures r.1 != [] ==> r.1 == [RowMessage(n, SupplierError + EmailTaken)]
    ensures sku in r.0.products && r.0.products[sku] == db.products[sku].(suppliers := r.0.products[sku].suppliers)
    ensures SuppliersGiven(data) && r.1 == [] ==>
      forall nm <- SupplierNames(data) :: nm in r.0.suppliers && nm in r.0.products[sku].suppliers
  {
    if SuppliersGiven(data) then
      var link := LinkSuppliers(db, sku, SupplierNames(data));
      (link.0, if link.1.Some? then [RowMessage(n, SupplierError + EmailTaken)] else [])
    else (db, [])
  }

  /** One data row, numbered `n`, whose fields are `row`, imported by `user`. `saveError` is the
      database error raised by saving the product, if any (it is not derived by the model). */
  function ImportRow(db: Db, n: nat, row: map<string, string>, user: string, saveError: Option<string>): (r: RowOutcome)
    ensures forall m <- r.messages :: StartsWith(m, "Row ")
    ensures Field(row, "name") == "" ==> r == RowOutcome(db, [RowMessage(n, NameRequired)], false)
    ensures Field(row, "name") != "" && Field(row, "sku") == "" ==> r == RowOutcome(db, [RowMessage(n, SkuRequired)], false)
    ensures Field(row, "name") != "" && Field(row, "sku") != "" && Field(row, "sku") in db.products ==>
      r == RowOutcome(db, [RowMessage(n, DuplicateSku(Field(row, "sku")))], false)
    ensures r.created <==>
      Field(row, "name") != "" && Field(row, "sku") != "" && Field(row, "sku") !in db.products && saveError.None?
  {
    var name := Field(row, "name");
    var sku := Field(row, "sku");
    if name == "" then RowOutcome(db, [RowMessage(n, NameRequired)], false)
    else if sku == "" then RowOutcome(db, [RowMessage(n, SkuRequired)], false)
    else if sku in db.products then RowOutcome(db, [RowMessage(n, DuplicateSku(sku))], false)
    else
      var db1 := WithCategory(db, Field(row, "category"));
      if saveError.Some? then
        RowOutcome(db1, RowWarnings(n, row) + [RowMessage(n, UnexpectedError + saveError.value)], false)
      else
        var db2 := db1.(products := db1.products[sku := NewProduct(row, user)]);
        var (db3, msgs) := AttachSuppliers(db2, n, sku, Field(row, "suppliers"));
        RowOutcome(db3, RowWarnings(n, row) + msgs, true)
  }

  /** The running totals of an import: the database, the messages and the success count. */
  datatype Batch = Batch(db: Db, errors: seq<string>, count: nat)

  /** The rows from data row number `n` on. A record with no cells at all (a blank line) is
      skipped by the reader and takes no number. `failures` gives the save errors by row. */
  function ImportRows(db: Db, header: seq<string>, records: seq<seq<string>>, n: nat, user: string,
                      failures: map<nat, string>): Batch
    decreases |records|
  {
    if records == [] then Batch(db, [], 0)
    else if records[0] == [] then ImportRows(db, header, records[1..], n, user, failures)
    else
      var r := ImportRow(db, n, MappedRow(header, records[0]), user, SaveErrorOf(failures, n));
      var rest := ImportRows(r.db, header, records[1..], n + 1, user, failures);
      Batch(rest.db, r.messages + rest.errors, (if r.created then 1 else 0) + rest.count)
  }

  function SaveErrorOf(failures: map<nat, string>, n: nat): Option<string> {
    if n in failures then Some(failures[n]) else None
  }

  /** The dictionary `import_from_csv` returns. */
  datatype ImportResult =
    | Report(success: bool, count: nat, errors: seq<string>, totalProcessed: nat)
    | ReadFailure(success: bool, error: string, count: nat, errors: seq<string>)

  /** The number of messages containing `needle`. */
  function CountContaining(msgs: seq<string>, needle: string): (k: nat)
    ensures k <= |msgs|
  {
    if msgs == [] then 0
    else (if Contains(msgs[0], needle) then 1 else 0) + CountContaining(msgs[1..], needle)
  }

  /** `import_from_csv` on a file whose header and records the reader produced, followed by
      `readError` if the reader then failed. Rows imported before such a failure stay in the
      database, but the result is the file-level error. */
  function ImportFromCsv(db: Db, header: seq<string>, records: seq<seq<string>>, user: string,
                         failures: map<nat, string>, readError: Option<string>): (r: (Db, ImportResult))
  {
    var b := ImportRows(db, header, records, 2, user, failures);
    (b.db, Summary(b, readError))
  }

  /** The dictionary returned once the rows of `b` have been imported. */
  function Summary(b: Batch, readError: Option<string>): ImportResult {
    if readError.Some? then ReadFailure(false, FileReadingError + readError.value, 0, [])
    else Report(b.count > 0, b.count, b.errors, b.count + CountContaining(b.errors, "Row"))
  }
}
