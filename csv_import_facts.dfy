/** What an import guarantees: the database stays valid, products already present are left
    alone, SKUs stay unique, the success count is the number of products created, and every
    message names its row. */
module CsvImportFacts {
  import opened Text
  import opened Numbers
  import opened Catalog
  import opened CsvRows
  import opened CsvImport

  /** Linking a product to its suppliers keeps the database valid. */
  lemma {:induction false} LinkSuppliersKeepsValid(db: Db, sku: string, names: seq<string>)
    requires ValidDb(db) && sku in db.products
    ensures ValidDb(LinkSuppliers(db, sku, names).0)
    decreases |names|
  {
    if names != [] {
      var name := names[0];
      if name in db.suppliers {
        LinkKeepsValid(db, sku, name);
        LinkSuppliersKeepsValid(Link(db, sku, name), sku, names[1..]);
      } else if !EmailInUse(db.suppliers, PlaceholderEmail(name)) {
        var db' := db.(suppliers := db.suppliers[name := PlaceholderSupplier(name)]);
        NewSupplierKeepsValid(db, name);
        LinkKeepsValid(db', sku, name);
        LinkSuppliersKeepsValid(Link(db', sku, name), sku, names[1..]);
      }
    }
  }

  lemma LinkKeepsValid(db: Db, sku: string, name: string)
    requires ValidDb(db) && sku in db.products && name in db.suppliers
    ensures ValidDb(Link(db, sku, name))
  {
  }

  lemma NewSupplierKeepsValid(db: Db, name: string)
    requires ValidDb(db) && name !in db.suppliers && !EmailInUse(db.suppliers, PlaceholderEmail(name))
    ensures ValidDb(db.(suppliers := db.suppliers[name := PlaceholderSupplier(name)]))
  {
    var s := db.suppliers[name := PlaceholderSupplier(name)];
    forall a <- s, b <- s | a != b
      ensures s[a].email != s[b].email
    {
      if a == name {
        assert db.suppliers[b].email != PlaceholderEmail(name);
      } else if b == name {
        assert db.suppliers[a].email != PlaceholderEmail(name);
      }
    }
  }

  /** The supplier step keeps the database valid and changes only the product's links and
      the suppliers it creates. */
  lemma AttachSuppliersFrame(db: Db, n: nat, sku: string, data: string)
    requires ValidDb(db) && sku in db.products
    ensures var r := AttachSuppliers(db, n, sku, data).0;
      && ValidDb(r) && r.movements == db.movements && r.categories == db.categories
      && r.products.Keys == db.products.Keys
      && (forall k <- db.products :: k != sku ==> r.products[k] == db.products[k])
      && (forall s <- db.suppliers :: s in r.suppliers && r.suppliers[s] == db.suppliers[s])
  {
    if SuppliersGiven(data) {
      LinkSuppliersKeepsValid(db, sku, SupplierNames(data));
    }
  }

  /** Saving a valid new product whose category exists keeps the database valid. */
  lemma AddProductKeepsValid(db: Db, p: Product)
    requires ValidDb(db) && ValidProduct(p) && p.sku !in db.products && p.suppliers == {}
    requires p.category.Some? ==> p.category.value in db.categories
    ensures ValidDb(db.(products := db.products[p.sku := p]))
  {
  }

  /** One row keeps the database valid, leaves every existing product, category and supplier
      as it was and the ledger untouched, and adds exactly its own product when it counts. */
  lemma ImportRowFrame(db: Db, n: nat, row: map<string, string>, user: string, saveError: Option<string>)
    requires ValidDb(db)
    ensures var r := ImportRow(db, n, row, user, saveError);
      && ValidDb(r.db)
      && r.db.movements == db.movements
      && (forall k <- db.products :: k in r.db.products && r.db.products[k] == db.products[k])
      && (forall c <- db.categories :: c in r.db.categories && r.db.categories[c] == db.categories[c])
      && (forall s <- db.suppliers :: s in r.db.suppliers && r.db.suppliers[s] == db.suppliers[s])
      && r.db.products.Keys == db.products.Keys + (if r.created then {Field(row, "sku")} else {})
  {
    ImportRowKeepsValid(db, n, row, user, saveError);
    ImportRowKeepsProducts(db, n, row, user, saveError);
    ImportRowKeepsCategories(db, n, row, user, saveError);
    ImportRowKeepsSuppliers(db, n, row, user, saveError);
    ImportRowAddsOwnProduct(db, n, row, user, saveError);
  }

  lemma ImportRowKeepsValid(db: Db, n: nat, row: map<string, string>, user: string, saveError: Option<string>)
    requires ValidDb(db)
    ensures var r := ImportRow(db, n, row, user, saveError);
      && ValidDb(r.db)
  {
    var r := ImportRow(db, n, row, user, saveError);
    var name := Field(row, "name");
    var sku := Field(row, "sku");
    if name != "" && sku != "" && sku !in db.products {
      var db1 := WithCategory(db, Field(row, "category"));
      WithCategoryKeepsValid(db, Field(row, "category"));
      if saveError.None? {
        var p := NewProduct(row, user);
        AddProductKeepsValid(db1, p);
        var db2 := db1.(products := db1.products[sku := p]);
        AttachSuppliersFrame(db2, n, sku, Field(row, "suppliers"));
        assert r.db == AttachSuppliers(db2, n, sku, Field(row, "suppliers")).0;
        assert r.created;
      } else {
        assert r.db == db1 && !r.created;
      }
    } else {
      assert r.db == db && !r.created;
    }
  }

  lemma ImportRowKeepsProducts(db: Db, n: nat, row: map<string, string>, user: string, saveError: Option<string>)
    ensures var r := ImportRow(db, n, row, user, saveError);
      && r.db.movements == db.movements
      && (forall k <- db.products :: k in r.db.products && r.db.products[k] == db.products[k])
  {
    var sku := Field(row, "sku");
    if Field(row, "name") != "" && sku != "" && sku !in db.products && saveError.None? {
      var db1 := WithCategory(db, Field(row, "category"));
      var db2 := db1.(products := db1.products[sku := NewProduct(row, user)]);
      assert ImportRow(db, n, row, user, saveError).db == AttachSuppliers(db2, n, sku, Field(row, "suppliers")).0;
    }
  }

  lemma ImportRowKeepsCategories(db: Db, n: nat, row: map<string, string>, user: string, saveError: Option<string>)
    ensures var r := ImportRow(db, n, row, user, saveError);
      && (forall c <- db.categories :: c in r.db.categories && r.db.categories[c] == db.categories[c])
  {
    var sku := Field(row, "sku");
    if Field(row, "name") != "" && sku != "" && sku !in db.products && saveError.None? {
      var db1 := WithCategory(db, Field(row, "category"));
      var db2 := db1.(products := db1.products[sku := NewProduct(row, user)]);
      assert ImportRow(db, n, row, user, saveError).db == AttachSuppliers(db2, n, sku, Field(row, "suppliers")).0;
    }
  }

  lemma ImportRowKeepsSuppliers(db: Db, n: nat, row: map<string, string>, user: string, saveError: Option<string>)
    ensures var r := ImportRow(db, n, row, user, saveError);
      && (forall s <- db.suppliers :: s in r.db.suppliers && r.db.suppliers[s] == db.suppliers[s])
  {
    var sku := Field(row, "sku");
    if Field(row, "name") != "" && sku != "" && sku !in db.products && saveError.None? {
      var db1 := WithCategory(db, Field(row, "category"));
      var db2 := db1.(products := db1.products[sku := NewProduct(row, user)]);
      assert ImportRow(db, n, row, user, saveError).db == AttachSuppliers(db2, n, sku, Field(row, "suppliers")).0;
    }
  }

  lemma ImportRowAddsOwnProduct(db: Db, n: nat, row: map<string, string>, user: string, saveError: Option<string>)
    ensures var r := ImportRow(db, n, row, user, saveError);
      && r.db.products.Keys == db.products.Keys + (if r.created then {Field(row, "sku")} else {})
  {
    var r := ImportRow(db, n, row, user, saveError);
    var sku := Field(row, "sku");
    if Field(row, "name") != "" && sku != "" && sku !in db.products {
      var db1 := WithCategory(db, Field(row, "category"));
      if saveError.None? {
        var db2 := db1.(products := db1.products[sku := NewProduct(row, user)]);
        assert r.db == AttachSuppliers(db2, n, sku, Field(row, "suppliers")).0;
        assert r.db.products.Keys == db2.products.Keys;
      } else {
        assert r.db.products == db.products;
      }
    }
  }

  /** A row with a name and a new SKU reports its coercion warnings first. When its save fails
      the database error follows them and nothing else; when it is saved, at most the supplier
      warning follows them. */
  lemma ImportRowMessages(db: Db, n: nat, row: map<string, string>, user: string, saveError: Option<string>)
    requires Field(row, "name") != "" && Field(row, "sku") != "" && Field(row, "sku") !in db.products
    ensures var r := ImportRow(db, n, row, user, saveError); var w := RowWarnings(n, row);
      && |w| <= |r.messages| <= |w| + 1 && r.messages[..|w|] == w
      && (saveError.Some? ==> r.messages == w + [RowMessage(n, UnexpectedError + saveError.value)])
      && (saveError.None? && |r.messages| > |w| ==> r.messages[|w|] == RowMessage(n, SupplierError + EmailTaken))
  {
    var r := ImportRow(db, n, row, user, saveError);
    var w := RowWarnings(n, row);
    var sku := Field(row, "sku");
    var db1 := WithCategory(db, Field(row, "category"));
    if saveError.None? {
      var db2 := db1.(products := db1.products[sku := NewProduct(row, user)]);
      var msgs := AttachSuppliers(db2, n, sku, Field(row, "suppliers")).1;
      assert r.messages == w + msgs;
      assert r.messages[..|w|] == w;
    } else {
      assert r.messages[..|w|] == w;
    }
  }

  /** The product a row creates carries the row's fields and coerced numbers, is recorded as
      created by the importing user, and has exactly the links the supplier step made; when no
      supplier warning was reported, every supplier the row names is linked to it. */
  lemma ImportRowSavesProduct(db: Db, n: nat, row: map<string, string>, user: string, saveError: Option<string>)
    ensures var r := ImportRow(db, n, row, user, saveError); var sku := Field(row, "sku");
      r.created ==>
        && sku in r.db.products
        && r.db.products[sku] == NewProduct(row, user).(suppliers := r.db.products[sku].suppliers)
        && (|r.messages| == |RowWarnings(n, row)| && SuppliersGiven(Field(row, "suppliers")) ==>
              forall nm <- SupplierNames(Field(row, "suppliers")) :: nm in r.db.products[sku].suppliers)
  {
    var r := ImportRow(db, n, row, user, saveError);
    var sku := Field(row, "sku");
    if r.created {
      var db1 := WithCategory(db, Field(row, "category"));
      var db2 := db1.(products := db1.products[sku := NewProduct(row, user)]);
      var att := AttachSuppliers(db2, n, sku, Field(row, "suppliers"));
      assert r == RowOutcome(att.0, RowWarnings(n, row) + att.1, true);
      assert |r.messages| == |RowWarnings(n, row)| ==> att.1 == [];
    }
  }

  lemma WithCategoryKeepsValid(db: Db, name: string)
    requires ValidDb(db)
    ensures ValidDb(WithCategory(db, name))
  {
  }

  /** The rows of a file keep the database valid and the ledger untouched, leave existing
      products alone, and add exactly `count` products; every message names its row. */
  lemma ImportRowsFacts(db: Db, header: seq<string>, records: seq<seq<string>>, n: nat,
                        user: string, failures: map<nat, string>)
    requires ValidDb(db)
    ensures var b := ImportRows(db, header, records, n, user, failures);
      && ValidDb(b.db)
      && b.db.movements == db.movements
      && (forall k <- db.products :: k in b.db.products && b.db.products[k] == db.products[k])
      && |b.db.products| == |db.products| + b.count
      && (forall m <- b.errors :: StartsWith(m, "Row "))
  {
    ImportRowsKeepValid(db, header, records, n, user, failures);
    ImportRowsKeepProducts(db, header, records, n, user, failures);
    ImportRowsCount(db, header, records, n, user, failures);
    ImportRowsMessages(db, header, records, n, user, failures);
  }

  lemma {:induction false} ImportRowsKeepValid(db: Db, header: seq<string>, records: seq<seq<string>>, n: nat,
                                               user: string, failures: map<nat, string>)
    requires ValidDb(db)
    ensures ValidDb(ImportRows(db, header, records, n, user, failures).db)
    decreases |records|
  {
    if records != [] {
      if records[0] == [] {
        ImportRowsKeepValid(db, header, records[1..], n, user, failures);
      } else {
        var row := MappedRow(header, records[0]);
        var r := ImportRow(db, n, row, user, SaveErrorOf(failures, n));
        ImportRowKeepsValid(db, n, row, user, SaveErrorOf(failures, n));
        ImportRowsKeepValid(r.db, header, records[1..], n + 1, user, failures);
      }
    }
  }

  lemma {:induction false} ImportRowsKeepProducts(db: Db, header: seq<string>, records: seq<seq<string>>, n: nat,
                                                  user: string, failures: map<nat, string>)
    ensures var b := ImportRows(db, header, records, n, user, failures);
      && b.db.movements == db.movements
      && (forall k <- db.products :: k in b.db.products && b.db.products[k] == db.products[k])
    decreases |records|
  {
    if records != [] {
      if records[0] == [] {
        ImportRowsKeepProducts(db, header, records[1..], n, user, failures);
      } else {
        var row := MappedRow(header, records[0]);
        var r := ImportRow(db, n, row, user, SaveErrorOf(failures, n));
        ImportRowKeepsProducts(db, n, row, user, SaveErrorOf(failures, n));
        ImportRowsKeepProducts(r.db, header, records[1..], n + 1, user, failures);
      }
    }
  }

  lemma {:induction false} ImportRowsCount(db: Db, header: seq<string>, records: seq<seq<string>>, n: nat,
                                           user: string, failures: map<nat, string>)
    ensures var b := ImportRows(db, header, records, n, user, failures);
      |b.db.products| == |db.products| + b.count
    decreases |records|
  {
    if records != [] {
      if records[0] == [] {
        ImportRowsCount(db, header, records[1..], n, user, failures);
      } else {
        var row := MappedRow(header, records[0]);
        var r := ImportRow(db, n, row, user, SaveErrorOf(failures, n));
        ImportRowAddsOwnProduct(db, n, row, user, SaveErrorOf(failures, n));
        ImportRowsCount(r.db, header, records[1..], n + 1, user, failures);
        if r.created {
          KeysGrowByOne(db.products, r.db.products, Field(row, "sku"));
        } else {
          assert r.db.products.Keys == db.products.Keys;
        }
      }
    }
  }

  lemma KeysGrowByOne(m: map<string, Product>, m': map<string, Product>, k: string)
    requires k !in m && m'.Keys == m.Keys + {k}
    ensures |m'| == |m| + 1
  {
    assert |m'.Keys| == |m.Keys| + 1;
  }

  lemma {:induction false} ImportRowsMessages(db: Db, header: seq<string>, records: seq<seq<string>>, n: nat,
                                              user: string, failures: map<nat, string>)
    ensures forall m <- ImportRows(db, header, records, n, user, failures).errors :: StartsWith(m, "Row ")
    decreases |records|
  {
    if records != [] {
      if records[0] == [] {
        ImportRowsMessages(db, header, records[1..], n, user, failures);
      } else {
        var row := MappedRow(header, records[0]);
        var r := ImportRow(db, n, row, user, SaveErrorOf(failures, n));
        ImportRowsMessages(r.db, header, records[1..], n + 1, user, failures);
      }
    }
  }

  /** Every message of an import contains "Row", so `total_processed` is the success count
      plus the number of messages, warnings included. */
  lemma {:induction false} AllMessagesCounted(msgs: seq<string>)
    requires forall m <- msgs :: StartsWith(m, "Row ")
    ensures CountContaining(msgs, "Row") == |msgs|
  {
    if msgs != [] {
      RowMessageContainsRow(msgs[0]);
      AllMessagesCounted(msgs[1..]);
    }
  }

  lemma RowMessageContainsRow(m: string)
    requires StartsWith(m, "Row ")
    ensures Contains(m, "Row")
  {
    assert m[..4][..3] == m[..3];
    assert m[0..] == m;
    assert StartsWith(m[0..], "Row");
  }

  /** The result of an import: `success` iff at least one product was created, `count` is the
      number of products created, the database stays valid and keeps its products and ledger;
      after a reading failure the report is empty but the rows read before it stay imported. */
  lemma ImportResultFacts(db: Db, header: seq<string>, records: seq<seq<string>>, user: string,
                          failures: map<nat, string>, readError: Option<string>)
    requires ValidDb(db)
    ensures var (db', res) := ImportFromCsv(db, header, records, user, failures, readError);
      && ValidDb(db') && db'.movements == db.movements
      && (forall k <- db.products :: k in db'.products && db'.products[k] == db.products[k])
      && (res.Report? ==> res.success == (res.count > 0) && |db'.products| == |db.products| + res.count
                          && res.totalProcessed == res.count + |res.errors|)
      && (res.ReadFailure? <==> readError.Some?)
      && (res.ReadFailure? ==> !res.success && res.count == 0 && res.errors == []
                               && res.error == FileReadingError + readError.value)
      && |db'.products| == |db.products| + ImportRows(db, header, records, 2, user, failures).count
  {
    var b := ImportRows(db, header, records, 2, user, failures);
    ImportRowsFacts(db, header, records, 2, user, failures);
    AllMessagesCounted(b.errors);
  }

  /** Blank records are skipped without using up a row number. */
  lemma BlankRecordSkipped(db: Db, header: seq<string>, records: seq<seq<string>>, n: nat, user: string,
                           failures: map<nat, string>)
    ensures ImportRows(db, header, [[]] + records, n, user, failures) == ImportRows(db, header, records, n, user, failures)
  {
    assert ([[]] + records)[1..] == records;
  }

  /** The first record of a file, when it is not blank, is imported as row `n` before the rest. */
  lemma ImportRowsStep(db: Db, header: seq<string>, record: seq<string>, records: seq<seq<string>>, n: nat,
                       user: string, failures: map<nat, string>)
    requires record != []
    ensures var r := ImportRow(db, n, MappedRow(header, record), user, SaveErrorOf(failures, n));
      var rest := ImportRows(r.db, header, records, n + 1, user, failures);
      ImportRows(db, header, [record] + records, n, user, failures)
        == Batch(rest.db, r.messages + rest.errors, (if r.created then 1 else 0) + rest.count)
  {
    assert ([record] + records)[1..] == records;
  }

  /** A row repeating the SKU of a product created by an earlier row is rejected with the
      duplicate message, creates nothing and leaves the database as the earlier row left it. */
  lemma RepeatedSkuRejected(db: Db, row1: map<string, string>, row2: map<string, string>, user: string,
                            saveError: Option<string>)
    requires ValidDb(db)
    requires Field(row1, "name") != "" && Field(row2, "name") != ""
    requires Field(row1, "sku") != "" && Field(row1, "sku") == Field(row2, "sku")
    requires Field(row1, "sku") !in db.products
    ensures var r1 := ImportRow(db, 2, row1, user, None);
      && r1.created
      && ImportRow(r1.db, 3, row2, user, saveError) == RowOutcome(r1.db, [RowMessage(3, DuplicateSku(Field(row1, "sku")))], false)
  {
    ImportRowAddsOwnProduct(db, 2, row1, user, None);
  }

  /** Within one file: when the first two rows carry the same new SKU, the first creates the
      product and the second is reported as a duplicate. */
  lemma RepeatedSkuInFileRejected(db: Db, header: seq<string>, first: seq<string>, second: seq<string>,
                                  user: string, failures: map<nat, string>)
    requires ValidDb(db) && first != [] && second != [] && 2 !in failures
    requires Field(MappedRow(header, first), "name") != "" && Field(MappedRow(header, second), "name") != ""
    requires Field(MappedRow(header, first), "sku") != ""
    requires Field(MappedRow(header, first), "sku") == Field(MappedRow(header, second), "sku")
    requires Field(MappedRow(header, first), "sku") !in db.products
    ensures var b := ImportRows(db, header, [first, second], 2, user, failures);
      && b.count == 1
      && b.errors != []
      && b.errors[|b.errors| - 1] == RowMessage(3, DuplicateSku(Field(MappedRow(header, first), "sku")))
  {
    RepeatedSkuRejected(db, MappedRow(header, first), MappedRow(header, second), user, SaveErrorOf(failures, 3));
    TwoRecords(db, header, first, second, user, failures);
  }

  /** A file of two non-blank records is imported as row 2 followed by row 3. */
  lemma TwoRecords(db: Db, header: seq<string>, first: seq<string>, second: seq<string>,
                   user: string, failures: map<nat, string>)
    requires first != [] && second != []
    ensures var r1 := ImportRow(db, 2, MappedRow(header, first), user, SaveErrorOf(failures, 2));
      var r2 := ImportRow(r1.db, 3, MappedRow(header, second), user, SaveErrorOf(failures, 3));
      ImportRows(db, header, [first, second], 2, user, failures)
        == Batch(r2.db, r1.messages + r2.messages, (if r1.created then 1 else 0) + (if r2.created then 1 else 0))
  {
    var r1 := ImportRow(db, 2, MappedRow(header, first), user, SaveErrorOf(failures, 2));
    OneRecord(r1.db, header, second, 3, user, failures);
    assert [first, second] == [first] + [second];
    ImportRowsStep(db, header, first, [second], 2, user, failures);
  }

  lemma OneRecord(db: Db, header: seq<string>, record: seq<string>, n: nat, user: string, failures: map<nat, string>)
    requires record != []
    ensures var r := ImportRow(db, n, MappedRow(header, record), user, SaveErrorOf(failures, n));
      ImportRows(db, header, [record], n, user, failures) == Batch(r.db, r.messages, if r.created then 1 else 0)
  {
    ImportRowsStep(db, header, record, [], n, user, failures);
    assert [record] + [] == [record];
  }

  /** The supplier field markers that mean "no suppliers". */
  lemma NoSupplierMarkers()
    ensures !SuppliersGiven("") && !SuppliersGiven("nan")
    ensures !SuppliersGiven("null") && !SuppliersGiven("NULL") && !SuppliersGiven("Null")
    ensures SuppliersGiven("NaN")
  {
    assert Lower("null") == "null";
    assert Lower("NULL") == "null";
    assert Lower("Null") == "null";
    assert Lower("NaN") == "nan";
  }
}
