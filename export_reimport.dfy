/** What the validator and the importer make of a file written by the export. The export puts a
    byte-order mark before the header; decoding as UTF-8 keeps it and `strip()` does not remove
    it, so the first header reaches both of them as "\U{FEFF}Name", which names no field. */
module ExportReimport {
  import opened Text
  import opened Catalog
  import opened CsvRows
  import opened CsvImport
  import opened CsvImportFacts
  import opened CsvExport
  import opened CsvValidation

  /** The validator's name headers are exactly the importer's synonyms of the name field. */
  lemma NameHeadersAgree()
    ensures forall k :: HeaderMapping(k) == Some("name") <==> k in NameHeaders
  {
  }

  /** A header cell as the export writes it and the reader returns it: nothing to quote, no
      white space at its ends, and not the length of any name synonym. */
  predicate PlainCell(f: string) {
    !NeedsQuoting(f) && f != [] && !IsSpace(f[0]) && !IsSpace(f[|f| - 1]) && |f| != 4 && |f| != 12
  }

  /** The header cells the reader yields from an exported file: the mark is part of the first. */
  function HeaderAsRead(filename: string): (r: seq<string>)
    ensures |r| >= 2 && r[1..] == HeaderOf(filename)[1..]
  {
    [Bom + "Name"] + HeaderOf(filename)[1..]
  }

  lemma ColumnNamesPlain()
    ensures PlainCell("SKU") && PlainCell("Category") && PlainCell("Suppliers") && PlainCell("Unit Price")
    ensures PlainCell("Stock") && PlainCell("Reorder Level") && PlainCell("Status") && PlainCell("Total Value")
  {
    PlainSku();
    PlainCategory();
    PlainSuppliers();
    PlainUnitPrice();
    PlainStock();
    PlainReorderLevel();
    PlainStatus();
    PlainTotalValue();
  }

  lemma PlainSku()
    ensures PlainCell("SKU")
  {
  }

  lemma PlainCategory()
    ensures PlainCell("Category")
  {
  }

  lemma PlainSuppliers()
    ensures PlainCell("Suppliers")
  {
  }

  lemma PlainUnitPrice()
    ensures PlainCell("Unit Price")
  {
  }

  lemma PlainStock()
    ensures PlainCell("Stock")
  {
  }

  lemma PlainReorderLevel()
    ensures PlainCell("Reorder Level")
  {
  }

  lemma PlainStatus()
    ensures PlainCell("Status")
  {
  }

  lemma PlainTotalValue()
    ensures PlainCell("Total Value")
  {
  }

  lemma MarkedNamePlain()
    ensures PlainCell(Bom + "Name")
  {
  }

  /** Every cell of the header as read is plain, and so is every column name of the export. */
  lemma HeaderCellsPlain(filename: string)
    ensures forall f <- HeaderAsRead(filename) :: PlainCell(f)
    ensures forall f <- HeaderOf(filename) :: !NeedsQuoting(f)
    ensures HeaderOf(filename) == ["Name"] + HeaderAsRead(filename)[1..]
  {
    ColumnNamesPlain();
    MarkedNamePlain();
    assert !NeedsQuoting("Name");
  }

  lemma QuoteAllPlain(fields: seq<string>)
    requires forall f <- fields :: !NeedsQuoting(f)
    ensures QuoteAll(fields) == fields
  {
  }

  /** No export column needs quoting, so the header row is its names joined by commas. */
  lemma HeaderRowPlain(filename: string)
    ensures RenderRow(HeaderOf(filename)) == Join(HeaderOf(filename), ",") + "\r\n"
  {
    HeaderCellsPlain(filename);
    QuoteAllPlain(HeaderOf(filename));
  }

  /** The first line of an export is the mark, the header names joined by commas and the
      carriage return of the row ending. */
  lemma ExportFirstLine(filename: string, products: seq<Product>)
    ensures var lines := Split(ExportBody(filename, products), '\n');
      |lines| >= 2 && lines[0] == Bom + Join(HeaderOf(filename), ",") + "\r"
  {
    HeaderCellsPlain(filename);
    HeaderRowPlain(filename);
    MarkedFirstLine(HeaderOf(filename), Rows(filename, products));
  }

  lemma MarkedFirstLine(h: seq<string>, rows: string)
    requires forall p <- h :: '\n' !in p
    ensures var lines := Split(Bom + (Join(h, ",") + "\r\n") + rows, '\n');
      |lines| >= 2 && lines[0] == Bom + Join(h, ",") + "\r"
  {
    var joined := Join(h, ",");
    JoinAvoids(h, ",", '\n');
    var line := Bom + joined + "\r";
    assert '\n' !in line by {
      assert '\n' !in Bom && '\n' !in "\r";
    }
    assert Bom + (joined + "\r\n") + rows == line + ['\n'] + rows;
    SplitHead(line, '\n', rows);
  }

  /** The reader's cells of the first line are `HeaderAsRead`. */
  lemma HeaderLineCells(filename: string)
    ensures Split(Bom + Join(HeaderOf(filename), ","), ',') == HeaderAsRead(filename)
  {
    var h := HeaderOf(filename);
    HeaderCellsPlain(filename);
    JoinPrepend(h, ",", Bom);
    SplitJoin(HeaderAsRead(filename), ',');
  }

  /** The cells the validator reads from an export's first line, before stripping: the
      carriage return stays on the last one. */
  lemma {:induction false} ValidatorPieces(filename: string)
    ensures var cells := HeaderAsRead(filename);
      Split(Bom + Join(HeaderOf(filename), ",") + "\r", ',')
        == cells[..|cells| - 1] + [cells[|cells| - 1] + "\r"]
  {
    var cells := HeaderAsRead(filename);
    JoinPrepend(HeaderOf(filename), ",", Bom);
    assert [Bom + HeaderOf(filename)[0]] + HeaderOf(filename)[1..] == cells;
    JoinLastAppend(cells, ",", '\r');
    var pieces := cells[..|cells| - 1] + [cells[|cells| - 1] + "\r"];
    HeaderCellsPlain(filename);
    forall p | p in pieces
      ensures ',' !in p
    {
      if p in cells[..|cells| - 1] {
        assert PlainCell(p);
      } else {
        assert PlainCell(cells[|cells| - 1]);
      }
    }
    SplitJoin(pieces, ',');
  }

  /** The validator's header cells of an exported file: the names of its columns, the first
      carrying the mark. */
  lemma ExportHeaderCells(filename: string, products: seq<Product>)
    ensures HeaderCells(ExportBody(filename, products)) == HeaderAsRead(filename)
  {
    ExportFirstLine(filename, products);
    ValidatorPieces(filename);
    HeaderCellsPlain(filename);
    StrippedPieces(HeaderAsRead(filename));
  }

  /** Stripping the pieces of a line whose last piece kept the carriage return gives back
      cells that had no white space at their ends. */
  lemma StrippedPieces(cells: seq<string>)
    requires cells != []
    requires forall f <- cells :: f != [] && !IsSpace(f[0]) && !IsSpace(f[|f| - 1])
    ensures StripAll(cells[..|cells| - 1] + [cells[|cells| - 1] + "\r"]) == cells
  {
    var pieces := cells[..|cells| - 1] + [cells[|cells| - 1] + "\r"];
    forall i | 0 <= i < |cells|
      ensures Strip(pieces[i]) == cells[i]
    {
      if i < |cells| - 1 {
        assert pieces[i] == cells[i];
        StripNoEdgeSpace(cells[i]);
      } else {
        StripCarriageReturn(cells[i]);
      }
    }
  }

  lemma StripCarriageReturn(s: string)
    requires s != [] && !IsSpace(s[0]) && !IsSpace(s[|s| - 1])
    ensures Strip(s + "\r") == s
  {
    var t := s + "\r";
    assert TrimLeft(t) == t;
    assert t[..|t| - 1] == s;
    assert TrimRight(s) == s;
  }

  /** Whatever it contains, a file written by the export fails validation for want of a name
      column, although its name and size pass. */
  lemma ExportFailsValidation(filename: string, products: seq<Product>, today: Date, size: nat)
    requires ValidDate(today) && size <= MaxUploadBytes
    ensures ValidateCsvFile(ExportFileName(filename, today), size, Decoded(ExportBody(filename, products)))
      == Invalid(NoNameColumn)
  {
    var body := ExportBody(filename, products);
    ExportFirstLine(filename, products);
    assert Count(body, '\n') >= 1;
    ExportHeaderCells(filename, products);
    NoNameInHeader(filename);
  }

  /** None of the validator's name headers is among the cells of an export's header as read. */
  lemma NoNameInHeader(filename: string)
    ensures !HasNameColumn(HeaderAsRead(filename))
  {
    var cells := HeaderAsRead(filename);
    HeaderCellsPlain(filename);
    forall h | h in NameHeaders
      ensures h !in cells
    {
      assert |h| == 4 || |h| == 12;
    }
  }

  /** A header that is its own `strip()` and is neither four nor twelve characters long does not
      name the name field, since every synonym of it has one of those lengths. */
  lemma MappedKeyNotName(h: string)
    requires Strip(h) == h && |h| != 4 && |h| != 12
    ensures MappedKey(h) != "name"
  {
    NameHeadersAgree();
    if HeaderMapping(h).None? {
      LowerStrip(h);
    }
  }

  /** The keys of `mapped_row` are the fields of the row's non-empty keys. */
  lemma {:induction false} MappedRowOfKeys(items: Items, k: string)
    requires k in MappedRowOf(items)
    ensures exists i :: 0 <= i < |items| && items[i].0 != "" && MappedKey(items[i].0) == k
  {
    var init := items[..|items| - 1];
    var last := items[|items| - 1];
    if k in MappedRowOf(init) {
      MappedRowOfKeys(init, k);
      var i :| 0 <= i < |init| && init[i].0 != "" && MappedKey(init[i].0) == k;
      assert items[i] == init[i];
    } else {
      assert last.0 != "" && MappedKey(last.0) == k;
    }
  }

  /** Under a header none of whose names maps to the name field, no row has a name. */
  lemma NoNameField(header: seq<string>, record: seq<string>)
    requires forall h <- header :: MappedKey(h) != "name"
    ensures Field(MappedRow(header, record), "name") == ""
  {
    var items := DictItems(header, record);
    if "name" in MappedRowOf(items) {
      MappedRowOfKeys(items, "name");
    }
  }

  /** The messages of an import in which no row has a name: one per non-blank record,
      numbered from `n` in order. */
  function NameErrors(records: seq<seq<string>>, n: nat): (r: seq<string>)
    ensures |r| <= |records|
    ensures forall i :: 0 <= i < |r| ==> r[i] == RowMessage(n + i, NameRequired)
    decreases |records|
  {
    if records == [] then []
    else if records[0] == [] then NameErrors(records[1..], n)
    else [RowMessage(n, NameRequired)] + NameErrors(records[1..], n + 1)
  }

  /** Under such a header an import changes nothing, creates nothing, and reports each
      non-blank record, in order and numbered from `n`, as lacking a name. */
  lemma {:induction false} NamelessHeaderImportsNothing(db: Db, header: seq<string>, records: seq<seq<string>>,
                                                        n: nat, user: string, failures: map<nat, string>)
    requires forall h <- header :: MappedKey(h) != "name"
    ensures ImportRows(db, header, records, n, user, failures) == Batch(db, NameErrors(records, n), 0)
    decreases |records|
  {
    if records != [] {
      assert records == [records[0]] + records[1..];
      NamelessHeaderImportsNothing(db, header, records[1..], if records[0] == [] then n else n + 1, user, failures);
      if records[0] == [] {
        BlankRecordSkipped(db, header, records[1..], n, user, failures);
      } else {
        NoNameField(header, records[0]);
        ImportRowsStep(db, header, records[0], records[1..], n, user, failures);
      }
    }
  }

  /** Re-importing the rows of an exported file creates no product: every row is reported as
      lacking a name. */
  lemma ExportedFileImportsNothing(db: Db, filename: string, records: seq<seq<string>>, user: string,
                                   failures: map<nat, string>)
    ensures ImportRows(db, HeaderAsRead(filename), records, 2, user, failures) == Batch(db, NameErrors(records, 2), 0)
  {
    var header := HeaderAsRead(filename);
    HeaderCellsPlain(filename);
    forall h | h in header
      ensures MappedKey(h) != "name"
    {
      StripNoEdgeSpace(h);
      MappedKeyNotName(h);
    }
    NamelessHeaderImportsNothing(db, header, records, 2, user, failures);
  }
}
