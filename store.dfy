/** The application's database as one object whose tables the views change in place: the CSV
    import, the stock update, and the deletions that only administrators and staff may make.
    Every method is tied to the functional description of its effect in the other modules. */
module InventoryStore {
  import opened Text
  import opened Accounts
  import opened Catalog
  import opened Forms
  import opened Views
  import opened Stock
  import opened CsvRows
  import opened CsvImport
  import opened CsvImportFacts

  /** `mapped_row`, built item by item from a reader row. */
  method BuildMappedRow(items: Items) returns (m: map<string, string>)
    ensures m == MappedRowOf(items)
  {
    m := map[];
    var i := 0;
    while i < |items|
      invariant 0 <= i <= |items|
      invariant m == MappedRowOf(items[..i])
    {
      assert items[..i + 1][..i] == items[..i];
      var (k, v) := items[i];
      if k != "" {
        m := m[MappedKey(k) := CellText(v)];
      }
      i := i + 1;
    }
    assert items[..|items|] == items;
  }

  /** The ledger without the entries about one product (the cascade of deleting it). */
  function DropMovements(ledger: seq<StockMovement>, sku: string): (r: seq<StockMovement>)
    ensures forall m <- r :: m in ledger && m.product != sku
    ensures forall m <- ledger :: m.product != sku ==> m in r
  {
    if ledger == [] then []
    else
      var rest := DropMovements(ledger[..|ledger| - 1], sku);
      var last := ledger[|ledger| - 1];
      if last.product == sku then rest else rest + [last]
  }

  /** Deleting a product: its row goes and its ledger entries go with it; every other
      product's entries stay, in order. */
  function RemoveProduct(db: Db, sku: string): (r: Db)
    ensures r.products.Keys == db.products.Keys - {sku}
    ensures forall k <- r.products :: r.products[k] == db.products[k]
    ensures r.categories == db.categories && r.suppliers == db.suppliers
    ensures forall m <- r.movements :: m.product != sku
    ensures forall k :: k != sku ==> MovementsOf(r.movements, k) == MovementsOf(db.movements, k)
  {
    DropKeepsAllOthers(db.movements, sku);
    db.(products := db.products - {sku}, movements := DropMovements(db.movements, sku))
  }

  lemma DropKeepsAllOthers(ledger: seq<StockMovement>, sku: string)
    ensures forall k :: k != sku ==> MovementsOf(DropMovements(ledger, sku), k) == MovementsOf(ledger, k)
  {
    forall k | k != sku
      ensures MovementsOf(DropMovements(ledger, sku), k) == MovementsOf(ledger, k)
    {
      DropKeepsOthers(ledger, sku, k);
    }
  }

  /** Deleting a category: its products lose their category rather than being deleted. */
  function RemoveCategory(db: Db, name: string): (r: Db)
    ensures r.categories.Keys == db.categories.Keys - {name}
    ensures r.products.Keys == db.products.Keys && r.suppliers == db.suppliers && r.movements == db.movements
    ensures forall k <- r.products :: r.products[k].category != Some(name)
    ensures forall k <- r.products :: db.products[k].category != Some(name) ==> r.products[k] == db.products[k]
    ensures forall k <- r.products :: r.products[k] == db.products[k].(category := r.products[k].category)
  {
    db.(categories := db.categories - {name},
        products := map k <- db.products ::
          if db.products[k].category == Some(name) then db.products[k].(category := None) else db.products[k])
  }

  /** Deleting a supplier: it is unlinked from every product it supplied. */
  function RemoveSupplier(db: Db, name: string): (r: Db)
    ensures r.suppliers.Keys == db.suppliers.Keys - {name}
    ensures r.products.Keys == db.products.Keys && r.categories == db.categories && r.movements == db.movements
    ensures forall k <- r.products :: r.products[k].suppliers == db.products[k].suppliers - {name}
    ensures forall k <- r.products :: r.products[k] == db.products[k].(suppliers := r.products[k].suppliers)
  {
    db.(suppliers := db.suppliers - {name},
        products := map k <- db.products :: db.products[k].(suppliers := db.products[k].suppliers - {name}))
  }

  /** A product's ledger is empty while no entry names it. */
  lemma {:induction false} NoMovementsOf(ledger: seq<StockMovement>, sku: string)
    requires forall m <- ledger :: m.product != sku
    ensures MovementsOf(ledger, sku) == []
  {
    if ledger != [] {
      NoMovementsOf(ledger[..|ledger| - 1], sku);
    }
  }

  /** Dropping one product's entries leaves every other product's ledger as it was. */
  lemma {:induction false} DropKeepsOthers(ledger: seq<StockMovement>, sku: string, other: string)
    requires other != sku
    ensures MovementsOf(DropMovements(ledger, sku), other) == MovementsOf(ledger, other)
  {
    if ledger != [] {
      var init := ledger[..|ledger| - 1];
      var last := ledger[|ledger| - 1];
      DropKeepsOthers(init, sku, other);
      if last.product != sku {
        MovementsOfAppend(DropMovements(init, sku), last, other);
      }
    }
  }

  /** Deleting a product keeps the database valid and every remaining level in agreement with
      its ledger. */
  lemma RemoveProductPreserves(db: Db, opening: map<string, int>, sku: string)
    requires ValidDb(db) && LedgerAgrees(db, opening)
    ensures ValidDb(RemoveProduct(db, sku)) && LedgerAgrees(RemoveProduct(db, sku), opening)
  {
    var r := RemoveProduct(db, sku);
    forall k | k in r.products
      ensures MovementsOf(r.movements, k) == MovementsOf(db.movements, k)
    {
      DropKeepsOthers(db.movements, sku, k);
    }
  }

  /** Deleting a category keeps the database valid and every level in agreement with its
      ledger. */
  lemma RemoveCategoryPreserves(db: Db, opening: map<string, int>, name: string)
    requires ValidDb(db) && LedgerAgrees(db, opening)
    ensures ValidDb(RemoveCategory(db, name)) && LedgerAgrees(RemoveCategory(db, name), opening)
  {
    var r := RemoveCategory(db, name);
    LevelsKeepLedger(db, r, opening);
    RemoveCategoryKeepsValid(db, name);
  }

  lemma RemoveCategoryKeepsValid(db: Db, name: string)
    requires ValidDb(db)
    ensures ValidDb(RemoveCategory(db, name))
  {
    var r := RemoveCategory(db, name);
    forall k <- r.products
      ensures r.products[k].category.Some? ==> r.products[k].category.value in r.categories
    {
      assert r.products[k] == db.products[k].(category := r.products[k].category);
    }
  }

  /** Deleting a supplier keeps the database valid and every level in agreement with its
      ledger. */
  lemma RemoveSupplierPreserves(db: Db, opening: map<string, int>, name: string)
    requires ValidDb(db) && LedgerAgrees(db, opening)
    ensures ValidDb(RemoveSupplier(db, name)) && LedgerAgrees(RemoveSupplier(db, name), opening)
  {
    var r := RemoveSupplier(db, name);
    LevelsKeepLedger(db, r, opening);
  }

  /** Changes that leave the ledger and every level as they were keep the two in agreement. */
  lemma LevelsKeepLedger(db: Db, db': Db, opening: map<string, int>)
    requires LedgerAgrees(db, opening)
    requires db'.products.Keys == db.products.Keys && db'.movements == db.movements
    requires forall k <- db'.products :: db'.products[k].quantityInStock == db.products[k].quantityInStock
    ensures LedgerAgrees(db', opening)
  {
  }

  /** The integrity constraints and the agreement of every level with its ledger. */
  ghost predicate Consistent(db: Db, opening: map<string, int>) {
    ValidDb(db) && LedgerAgrees(db, opening)
  }

  /** `update_stock` keeps the database consistent. */
  lemma StockUpdateConsistent(db: Db, opening: map<string, int>, sku: string, actor: User, form: StockForm)
    requires Consistent(db, opening)
    ensures Consistent(StockUpdate(db, sku, actor, form).0, opening)
  {
    StockUpdatePreserves(db, opening, sku, actor, form);
  }

  /** One row of an import keeps the database consistent: existing levels and the ledger are
      untouched, and a created product starts from its imported level. */
  lemma ImportRowConsistent(db: Db, opening: map<string, int>, n: nat, row: map<string, string>, user: string,
                            saveError: Option<string>)
    requires Consistent(db, opening)
    ensures var r := ImportRow(db, n, row, user, saveError);
      && (r.created ==> Field(row, "sku") in r.db.products)
      && Consistent(r.db, if r.created then opening[Field(row, "sku") := r.db.products[Field(row, "sku")].quantityInStock]
                          else opening)
  {
    var r := ImportRow(db, n, row, user, saveError);
    ImportRowFrame(db, n, row, user, saveError);
    if r.created {
      NoMovementsOf(db.movements, Field(row, "sku"));
    }
  }

  /** `total` is the outcome of an import that has gathered `errors` and `count` so far and
      still has `records`, from row `n` on, to import onto `db`. */
  ghost predicate Tallies(total: Batch, db: Db, header: seq<string>, records: seq<seq<string>>, n: nat,
                           user: string, failures: map<nat, string>, errors: seq<string>, count: nat)
  {
    var rest := ImportRows(db, header, records, n, user, failures);
    total == Batch(rest.db, errors + rest.errors, count + rest.count)
  }

  /** The running totals of an import after one more non-blank record. */
  lemma BatchAdvance(total: Batch, errors: seq<string>, count: nat, db: Db, header: seq<string>,
                     records: seq<seq<string>>, i: nat, n: nat, user: string, failures: map<nat, string>)
    requires i < |records| && records[i] != []
    requires Tallies(total, db, header, records[i..], n, user, failures, errors, count)
    ensures var r := ImportRow(db, n, MappedRow(header, records[i]), user, SaveErrorOf(failures, n));
      Tallies(total, r.db, header, records[i + 1..], n + 1, user, failures,
               errors + r.messages, count + if r.created then 1 else 0)
  {
    assert records[i..] == [records[i]] + records[i + 1..];
    RecordAdvance(total, errors, count, db, header, records[i], records[i + 1..], n, user, failures);
  }

  lemma RecordAdvance(total: Batch, errors: seq<string>, count: nat, db: Db, header: seq<string>, record: seq<string>,
                      records: seq<seq<string>>, n: nat, user: string, failures: map<nat, string>)
    requires record != []
    requires Tallies(total, db, header, [record] + records, n, user, failures, errors, count)
    ensures var r := ImportRow(db, n, MappedRow(header, record), user, SaveErrorOf(failures, n));
      Tallies(total, r.db, header, records, n + 1, user, failures, errors + r.messages, count + if r.created then 1 else 0)
  {
    var r := ImportRow(db, n, MappedRow(header, record), user, SaveErrorOf(failures, n));
    var rest := ImportRows(r.db, header, records, n + 1, user, failures);
    ImportRowsStep(db, header, record, records, n, user, failures);
    BatchRegroup(total, errors, count, r.messages, if r.created then 1 else 0, rest);
  }

  /** The running totals of an import after a blank record. */
  lemma BatchSkip(total: Batch, errors: seq<string>, count: nat, db: Db, header: seq<string>,
                  records: seq<seq<string>>, i: nat, n: nat, user: string, failures: map<nat, string>)
    requires i < |records| && records[i] == []
    requires Tallies(total, db, header, records[i..], n, user, failures, errors, count)
    ensures Tallies(total, db, header, records[i + 1..], n, user, failures, errors, count)
  {
    assert records[i..] == [[]] + records[i + 1..];
    BlankRecordSkipped(db, header, records[i + 1..], n, user, failures);
  }

  lemma BatchRegroup(total: Batch, errors: seq<string>, count: nat, messages: seq<string>, created: nat, rest: Batch)
    requires total == Batch(rest.db, errors + (messages + rest.errors), count + (created + rest.count))
    ensures total == Batch(rest.db, (errors + messages) + rest.errors, (count + created) + rest.count)
  {
    assert errors + (messages + rest.errors) == (errors + messages) + rest.errors;
  }

  /** One step of `LinkSuppliers`: the first name is linked, after creating its supplier
      when needed, unless that creation fails. */
  lemma LinkSuppliersStep(db: Db, sku: string, names: seq<string>)
    requires sku in db.products && names != []
    ensures LinkSuppliers(db, sku, names) ==
      if names[0] in db.suppliers then LinkSuppliers(Link(db, sku, names[0]), sku, names[1..])
      else if EmailInUse(db.suppliers, PlaceholderEmail(names[0])) then (db, Some(EmailTaken))
      else LinkSuppliers(Link(db.(suppliers := db.suppliers[names[0] := PlaceholderSupplier(names[0])]), sku, names[0]),
                         sku, names[1..])
  {
  }

  class Store {
    var products: map<string, Product>
    var categories: map<string, Category>
    var suppliers: map<string, Supplier>
    var movements: seq<StockMovement>
    /** The level each product had when it was created, before any ledger entry. */
    ghost var opening: map<string, int>

    function State(): Db
      reads this
    {
      Db(products, categories, suppliers, movements)
    }

    /** The tables meet their constraints and every stock level is the replay of its ledger. */
    ghost predicate Valid()
      reads this
    {
      Consistent(State(), opening)
    }

    constructor ()
      ensures State() == EmptyDb && Valid()
    {
      products := map[];
      categories := map[];
      suppliers := map[];
      movements := [];
      opening := map[];
    }

    /** `product.suppliers.add(...)` for each name, get-or-creating the supplier first; a
        failed creation ends the loop with its error. */
    method LinkSupplierNames(sku: string, names: seq<string>) returns (err: Option<string>)
      requires sku in products
      modifies this
      ensures (State(), err) == LinkSuppliers(old(State()), sku, names)
      ensures opening == old(opening)
    {
      err := None;
      var i := 0;
      while i < |names|
        invariant 0 <= i <= |names|
        invariant sku in products && opening == old(opening)
        invariant LinkSuppliers(old(State()), sku, names) == LinkSuppliers(State(), sku, names[i..])
      {
        var name := names[i];
        ghost var db := State();
        LinkSuppliersStep(db, sku, names[i..]);
        assert names[i..][0] == name && names[i..][1..] == names[i + 1..];
        if name !in suppliers {
          if EmailInUse(suppliers, PlaceholderEmail(name)) {
            err := Some(EmailTaken);
            return;
          }
          suppliers := suppliers[name := PlaceholderSupplier(name)];
        }
        ghost var db' := State();
        products := products[sku := products[sku].(suppliers := products[sku].suppliers + {name})];
        assert State() == Link(db', sku, name);
        i := i + 1;
      }
    }

    /** One non-blank record, numbered `n`: builds its `mapped_row`, checks name, SKU and
        uniqueness, gets or creates the category, coerces the numbers, saves the product
        (unless `saveError` says the save fails) and links its suppliers. */
    method ImportRecord(n: nat, header: seq<string>, record: seq<string>, user: string, saveError: Option<string>)
      returns (messages: seq<string>, created: bool)
      modifies this
      ensures var r := ImportRow(old(State()), n, MappedRow(header, record), user, saveError);
        State() == r.db && messages == r.messages && created == r.created
      ensures opening == old(opening)
    {
      var row := BuildMappedRow(DictItems(header, record));
      var name := Field(row, "name");
      var sku := Field(row, "sku");
      if name == "" {
        return [RowMessage(n, NameRequired)], false;
      }
      if sku == "" {
        return [RowMessage(n, SkuRequired)], false;
      }
      if sku in products {
        return [RowMessage(n, DuplicateSku(sku))], false;
      }
      messages, created := SaveRecord(n, row, user, saveError);
    }

    /** A row with a name and a new SKU: gets or creates the category, coerces the numbers,
        saves the product (unless `saveError` says the save fails) and links its suppliers. */
    method SaveRecord(n: nat, row: map<string, string>, user: string, saveError: Option<string>)
      returns (messages: seq<string>, created: bool)
      requires Field(row, "name") != "" && Field(row, "sku") != "" && Field(row, "sku") !in products
      modifies this
      ensures var r := ImportRow(old(State()), n, row, user, saveError);
        State() == r.db && messages == r.messages && created == r.created
      ensures opening == old(opening)
    {
      var sku := Field(row, "sku");
      var category := Field(row, "category");
      if category != "" && category !in categories {
        categories := categories[category := Category(category, "")];
      }
      messages := RowWarnings(n, row);
      if saveError.Some? {
        return messages + [RowMessage(n, UnexpectedError + saveError.value)], false;
      }
      products := products[sku := NewProduct(row, user)];
      var warnings := AttachRecordSuppliers(n, sku, Field(row, "suppliers"));
      messages := messages + warnings;
      created := true;
    }

    /** The supplier step of row `n` for the saved product `sku`. */
    method AttachRecordSuppliers(n: nat, sku: string, data: string) returns (messages: seq<string>)
      requires sku in products
      modifies this
      ensures (State(), messages) == AttachSuppliers(old(State()), n, sku, data)
      ensures opening == old(opening)
    {
      messages := [];
      if SuppliersGiven(data) {
        var err := LinkSupplierNames(sku, SupplierNames(data));
        if err.Some? {
          messages := [RowMessage(n, SupplierError + err.value)];
        }
      }
    }

    /** One record as `ImportRecord` imports it, with the level a created product starts from
        recorded beside the ledger. */
    method ImportNext(n: nat, header: seq<string>, record: seq<string>, user: string, saveError: Option<string>)
      returns (messages: seq<string>, created: bool)
      requires Valid()
      modifies this
      ensures var r := ImportRow(old(State()), n, MappedRow(header, record), user, saveError);
        State() == r.db && messages == r.messages && created == r.created
      ensures Valid()
    {
      ghost var row := MappedRow(header, record);
      ImportRowConsistent(State(), opening, n, row, user, saveError);
      messages, created := ImportRecord(n, header, record, user, saveError);
      if created {
        opening := opening[Field(row, "sku") := products[Field(row, "sku")].quantityInStock];
      }
    }

    /** The loop of `import_from_csv` over the records, data rows numbered from 2: the
        messages in order and the number of products created add up to `total`, the
        outcome of the rows. */
    method ImportRecords(header: seq<string>, records: seq<seq<string>>, user: string, failures: map<nat, string>,
                         ghost total: Batch)
      returns (errors: seq<string>, count: nat)
      requires Valid() && total == ImportRows(State(), header, records, 2, user, failures)
      modifies this
      ensures total == Batch(State(), errors, count)
      ensures Valid()
    {
      errors := [];
      count := 0;
      var n: nat := 2;
      var i := 0;
      assert records[0..] == records;
      assert [] + total.errors == total.errors;
      while i < |records|
        invariant 0 <= i <= |records|
        invariant Valid()
        invariant Tallies(total, State(), header, records[i..], n, user, failures, errors, count)
      {
        var record := records[i];
        if record == [] {
          BatchSkip(total, errors, count, State(), header, records, i, n, user, failures);
        } else {
          BatchAdvance(total, errors, count, State(), header, records, i, n, user, failures);
          var messages, created := ImportNext(n, header, record, user, SaveErrorOf(failures, n));
          errors := errors + messages;
          count := count + if created then 1 else 0;
          n := n + 1;
        }
        i := i + 1;
      }
      assert records[i..] == [];
      assert errors + [] == errors;
    }

    /** `import_from_csv` on the header and records the reader produced; `readError` is the
        reader's failure after them, if any, and `failures` gives the rows whose save fails. */
    method ImportFromCsv(header: seq<string>, records: seq<seq<string>>, user: string,
                         failures: map<nat, string>, readError: Option<string>) returns (result: ImportResult)
      requires Valid()
      modifies this
      ensures Valid()
      ensures (State(), result) == CsvImport.ImportFromCsv(old(State()), header, records, user, failures, readError)
    {
      ghost var total := ImportRows(old(State()), header, records, 2, user, failures);
      var errors, count := ImportRecords(header, records, user, failures, total);
      result := Summary(Batch(State(), errors, count), readError);
    }

    /** The import view: the guards, then the upload form (an upload named `fileName` of
        `size` bytes), then the import by the signed-in user. A refused request or an invalid
        form changes nothing. */
    method ImportView(who: Principal, fileName: string, size: nat, header: seq<string>, records: seq<seq<string>>,
                      failures: map<nat, string>, readError: Option<string>)
      returns (access: Access, result: Option<ImportResult>)
      requires Valid()
      modifies this
      ensures access == Gate(ImportProducts, who)
      ensures result.Some? <==> access == Granted && CleanImportForm(fileName, size) == Pass
      ensures result.Some? ==> fileName != "" && size > 0 && EndsWith(fileName, ".csv")
      ensures result.None? ==> State() == old(State())
      ensures result.Some? ==>
        (State(), result.value)
          == CsvImport.ImportFromCsv(old(State()), header, records, who.user.username, failures, readError)
      ensures Valid()
    {
      access := Gate(ImportProducts, who);
      if access != Granted || CleanImportForm(fileName, size) != Pass {
        return access, None;
      }
      var r := ImportFromCsv(header, records, who.user.username, failures, readError);
      result := Some(r);
    }

    /** `update_stock` on a POST by `actor`: the transition on the product's level, then the
        save, then the ledger entry. */
    method UpdateStock(sku: string, actor: User, form: StockForm) returns (outcome: StockOutcome)
      requires Valid()
      modifies this
      ensures (State(), outcome) == StockUpdate(old(State()), sku, actor, form)
      ensures Valid() && opening == old(opening)
    {
      if sku !in products {
        return NotFound;
      }
      var req := CleanStockUpdate(form);
      if req.None? {
        return FormInvalid;
      }
      outcome := ApplyRequest(sku, actor, form, req.value);
    }

    /** The movement of a valid form applied to an existing product: refused when it would
        take the level below zero, otherwise saved and recorded. */
    method ApplyRequest(sku: string, actor: User, ghost form: StockForm, req: StockRequest) returns (outcome: StockOutcome)
      requires Valid() && sku in products && CleanStockUpdate(form) == Some(req)
      modifies this
      ensures (State(), outcome) == StockUpdate(old(State()), sku, actor, form)
      ensures Valid() && opening == old(opening)
    {
      ghost var before := State();
      var p := products[sku];
      var stock := p.quantityInStock;
      match req.movementType {
        case In =>
          stock := stock + req.quantity;
        case Out =>
          if stock < req.quantity {
            return InsufficientStock;
          }
          stock := stock - req.quantity;
        case Adjustment =>
          stock := req.quantity;
      }
      assert ApplyMovement(p.quantityInStock, req.movementType, req.quantity) == Some(stock);
      StockUpdateConsistent(before, opening, sku, actor, form);
      Record(sku, p.(quantityInStock := stock),
             StockMovement(sku, req.movementType, req.quantity, req.reason, Some(actor.username)));
      outcome := Updated(stock <= p.reorderLevel);
    }

    /** `product.save()` followed by the insertion of a ledger entry, with no transaction
        around the two. */
    method Record(sku: string, p: Product, m: StockMovement)
      modifies this
      ensures State() == old(State()).(products := old(products)[sku := p], movements := old(movements) + [m])
      ensures opening == old(opening)
    {
      products := products[sku := p];
      movements := movements + [m];
    }

    /** `ProductDeleteView` on a confirmed POST: refused unless admin or staff; a missing
        product is not found; otherwise the product and its ledger entries are deleted. */
    method DeleteProduct(who: Principal, sku: string) returns (access: Access, deleted: bool)
      requires Valid()
      modifies this
      ensures access == Gate(ProductDelete, who)
      ensures deleted <==> access == Granted && sku in old(products)
      ensures State() == if deleted then RemoveProduct(old(State()), sku) else old(State())
      ensures Valid()
    {
      access := Gate(ProductDelete, who);
      if access != Granted || sku !in products {
        return access, false;
      }
      RemoveProductPreserves(State(), opening, sku);
      products := products - {sku};
      movements := DropMovements(movements, sku);
      deleted := true;
    }

    /** `CategoryDeleteView`: as for products, but the category's products are kept without a
        category. */
    method DeleteCategory(who: Principal, name: string) returns (access: Access, deleted: bool)
      requires Valid()
      modifies this
      ensures access == Gate(CategoryDelete, who)
      ensures deleted <==> access == Granted && name in old(categories)
      ensures State() == if deleted then RemoveCategory(old(State()), name) else old(State())
      ensures Valid()
    {
      access := Gate(CategoryDelete, who);
      if access != Granted || name !in categories {
        return access, false;
      }
      RemoveCategoryPreserves(State(), opening, name);
      var r := RemoveCategory(State(), name);
      categories := r.categories;
      products := r.products;
      deleted := true;
    }

    /** `SupplierDeleteView`: as for products, but the supplier is only unlinked from the
        products it supplied. */
    method DeleteSupplier(who: Principal, name: string) returns (access: Access, deleted: bool)
      requires Valid()
      modifies this
      ensures access == Gate(SupplierDelete, who)
      ensures deleted <==> access == Granted && name in old(suppliers)
      ensures State() == if deleted then RemoveSupplier(old(State()), name) else old(State())
      ensures Valid()
    {
      access := Gate(SupplierDelete, who);
      if access != Granted || name !in suppliers {
        return access, false;
      }
      RemoveSupplierPreserves(State(), opening, name);
      var r := RemoveSupplier(State(), name);
      suppliers := r.suppliers;
      products := r.products;
      deleted := true;
    }
  }
}
