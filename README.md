# Inventory Plus — a verified model of the inventory core

Inventory Plus is a Django stock-keeping application. It holds categories, suppliers, products and a stock-movement ledger. This project models the parts of it that decide what happens to that data, and proves what they guarantee:

- **The CSV product import** (`import_from_csv`). `Store.ImportFromCsv` models it as a loop over the records of an already-parsed file. The loop mutates one `Store` object that holds the tables, and is proved equal to a functional specification (`CsvImport.ImportFromCsv`). It covers:
  - the header synonym table;
  - the `mapped_row` built from each record;
  - the name, SKU and duplicate-SKU checks;
  - the coercion of the numeric fields, with their warnings;
  - get-or-create of categories and suppliers;
  - the linking of suppliers;
  - the result dictionary.
- **The pre-flight check of an upload** (`validate_csv_file`), as a chain of early returns.
- **The CSV export** (`export_to_csv`): the attachment name, the byte-order mark, the two column schemas and one rendered row per product.
- **The stock movement of `update_stock`**: the three-way transition on a product's level, the refusal of an over-large stock-out, the append-only ledger and the low-stock alert decision.
  - An invariant of the store: every product's level is the replay of its ledger entries over the level it was created with.
  - Every operation of the store is proved to keep that invariant, together with the database's integrity constraints.
- **The access policy**: `is_admin`, `is_admin_or_staff`, `AdminRequiredMixin`, the `login_required` guards, and the product list's search and filters.
- **The derived product values**: low stock, stock status, total value, expiring soon.
- **The form checks**: the product form's expiry rules, the stock-update form's fields, and the import form's `.csv` check.
- **The user roles** of the accounts application.

The model follows the code, including these behaviours a reader might not expect:

- The ledger entry of an adjustment records the requested quantity, which is the new level, not the change.
- The product save and the ledger insert are two separate writes, with no transaction.
- `is_expiring_soon` is also true for dates already past.
- The rows imported before a reading failure stay in the database, although the result reports `count` 0 (`CsvImportFacts.ImportResultFacts`).
- A file written by the export does not survive a re-import. The export writes a byte-order mark before the header. Decoding as UTF-8 keeps that mark, and `strip()` does not remove it, so the first header is read as `"\ufeffName"`. That header names no field. As a result:
  - the validator rejects the file for want of a name column (`ExportReimport.ExportFailsValidation`);
  - the importer reports every row as lacking a name and creates nothing (`ExportReimport.ExportedFileImportsNothing`).

Modules and files:

| file | module | what it holds |
|---|---|---|
| `text.dfy` | `Text` | the Python string operations used (`strip`, ASCII `lower`, `split`, `join`) and `Option` |
| `numbers.dfy` | `Numbers` | `str()` of integers and two-place decimals, and `float()`/`int()` parsing |
| `accounts.dfy` | `Accounts` | users and their roles |
| `catalog.dfy` | `Catalog` | the records, the derived product values, and the integrity constraints of the database |
| `forms.dfy` | `Forms` | the three forms' checks |
| `stock.dfy` | `Stock` | the `update_stock` transition and the ledger invariant |
| `views.dfy` | `Views` | the access guards and the product list query |
| `csv_rows.dfy` | `CsvRows` | `DictReader` rows, the synonym table and `mapped_row` |
| `csv_import.dfy` | `CsvImport` | the import as functions: one row, all rows, the result |
| `csv_import_facts.dfy` | `CsvImportFacts` | what an import guarantees |
| `csv_validation.dfy` | `CsvValidation` | `validate_csv_file` |
| `csv_export.dfy` | `CsvExport` | `export_to_csv` and the CSV writer's quoting |
| `export_reimport.dfy` | `ExportReimport` | what the validator and importer make of an exported file |
| `store.dfy` | `InventoryStore` | the `Store` class: import, stock update and deletions, mutating the tables in place |

## Model

| member | source | states |
|---|---|---|
| Accounts.NewUser | Inventory_Plus/accounts/models.py:10 | a new account has the default type `employee`, so it is an employee and not an admin |
| Accounts.RolesExclusive | Inventory_Plus/accounts/models.py:13-17 | no user is both admin and employee; a type outside the two choices is neither |
| Views.PrivilegeFacts | Inventory_Plus/inventory/views.py:18-26 | anonymous requests are neither admin nor admin-or-staff; an admin is admin-or-staff; a new account is not; a signed-in non-admin passes exactly when `is_staff` or `is_superuser` holds |
| Views.Gate | Inventory_Plus/inventory/views.py:30-37 | a request goes ahead iff it is signed in, and also admin-or-staff on a mixin-guarded view or the import view; a refused mixin view redirects to the dashboard, a refused import to the login page |
| Views.EmployeesAndPrivilegedViews | Inventory_Plus/inventory/views.py:117-155 | a plain employee may create and edit products, move stock and export, but is refused every mixin-guarded view and the import |
| Views.ListProducts | Inventory_Plus/inventory/views.py:79-96 | the list keeps exactly the products that match the search (case-insensitively in name, SKU or description) and the given category and supplier, in their order |
| Views.ListOneProduct | Inventory_Plus/inventory/views.py:85-96 | a single product is listed iff it matches the query |
| Views.ListProductsAppend | Inventory_Plus/inventory/views.py:85-96 | the list of two runs of products is the list of the first followed by the list of the second, so filtering keeps order and multiplicity |
| Views.UnfilteredListIsAll | Inventory_Plus/inventory/views.py:85-96 | with no filter given, the list is every product in order |
| Views.CategoryFilterNarrows | Inventory_Plus/inventory/views.py:91-92 | adding a category filter never lengthens the list |
| Forms.CleanProduct | Inventory_Plus/inventory/forms.py:32-43 | the product form passes iff a perishable product has an expiry date and no date lies before today; the perishable check's message comes first |
| Forms.AcceptedProductNotExpired | Inventory_Plus/inventory/forms.py:40-41 | an accepted perishable product expires today or later, and one expiring today is already expiring soon |
| Forms.ParseMovementType | Inventory_Plus/inventory/forms.py:74-80 | a movement type is accepted iff it is one of `in`, `out`, `adjustment`, and maps to that stored code |
| Forms.CleanStockUpdate | Inventory_Plus/inventory/forms.py:73-82 | the stock form is valid iff the type is one of the three choices, the quantity is at least 1 and the stripped reason is non-empty; the cleaned data carries exactly those values |
| Forms.CleanCsvFile | Inventory_Plus/inventory/forms.py:95-99 | `clean_csv_file` passes iff the file name ends in `.csv`, and otherwise gives the CSV-format message |
| Forms.CleanImportForm | Inventory_Plus/inventory/forms.py:90-99 | the import form is valid iff the upload has a name, is not empty and its name ends in `.csv`; a nameless upload, an empty one and a wrong extension each give their own message, in that order |
| Forms.EmptyUploadRefused | Inventory_Plus/inventory/forms.py:90-93 | an empty upload is refused by the file field even when its name ends in `.csv`; a non-empty `.csv` upload passes |
| Forms.UpperCaseExtensionRefused | Inventory_Plus/inventory/forms.py:97-98 | the extension check is case-sensitive: `products.CSV` is refused, `products.csv` accepted |
| Catalog.GetStockStatus | Inventory_Plus/inventory/models.py:73-79 | Out of Stock iff the stock is 0; Low Stock iff it is non-zero and at most the reorder level; In Stock otherwise |
| Catalog.StatusAgreesWithLowStock | Inventory_Plus/inventory/models.py:64-79 | with a non-negative reorder level, Out of Stock implies `is_low_stock`, and "not In Stock" coincides with `is_low_stock` |
| Catalog.GetTotalValue | Inventory_Plus/inventory/models.py:81-82 | the value is 0 when the stock or the price is 0, not negative for valid products, and at least the unit price when something is in stock |
| Catalog.ExpiringSoonIsPermanent | Inventory_Plus/inventory/models.py:67-71 | never true for a product that is not perishable or has no date; true for a perishable product already past its date; once true, true on every later day |
| Stock.ApplyMovement | Inventory_Plus/inventory/views.py:166-175 | refused iff an outgoing quantity exceeds the stock; an accepted movement keeps the stock non-negative; `in` raises it, `out` lowers it, and an adjustment of at least 1 never yields 0 |
| Stock.MovementDeltas | Inventory_Plus/inventory/views.py:166-175 | `in` adds exactly the quantity, an accepted `out` removes exactly it, and an adjustment's result does not depend on the previous level |
| Stock.StockUpdate | Inventory_Plus/inventory/views.py:155-191 | 404 iff the product is missing; updated iff the form is valid and the movement allowed; otherwise nothing changes; an update sets that product's level and appends one entry with the requested type, quantity, stripped reason and actor; an alert is requested iff the new level is at most the reorder level |
| Stock.LedgerAppendOnly | Inventory_Plus/inventory/views.py:177-185 | the ledger keeps its old entries and grows by one entry exactly when the movement was accepted; that entry holds the requested quantity |
| Stock.StockUpdatePreserves | Inventory_Plus/inventory/views.py:177-185 | a stock update keeps the database's integrity constraints and keeps every level equal to the replay of its ledger |
| Stock.RecordKeepsLedger | Inventory_Plus/inventory/views.py:177-185 | setting a level to the result of a movement and appending that movement keeps every level equal to its replay |
| InventoryStore.Store.UpdateStock | Inventory_Plus/inventory/views.py:155-191 | the method leaves the store in the state, and returns the outcome, that `StockUpdate` gives, and keeps the store's invariant |
| InventoryStore.Store.ApplyRequest | Inventory_Plus/inventory/views.py:163-185 | for an existing product and a valid form: the three-way transition, the refusal of an over-large stock-out, then the save and the ledger insert, as `StockUpdate` gives |
| InventoryStore.Store.Record | Inventory_Plus/inventory/views.py:177-185 | `product.save()` then the ledger insert: that product's row replaced and one entry appended, nothing else changed |
| InventoryStore.StockUpdateConsistent | Inventory_Plus/inventory/views.py:155-191 | a stock update keeps the integrity constraints and the ledger invariant together |
| InventoryStore.RemoveProduct | Inventory_Plus/inventory/models.py:91 | deleting a product removes its row and, by the cascade, its ledger entries; every other product's ledger entries stay, in order, and other products, categories and suppliers stay |
| InventoryStore.RemoveCategory | Inventory_Plus/inventory/models.py:46 | deleting a category removes it; its products stay, with no category; nothing else changes |
| InventoryStore.RemoveSupplier | Inventory_Plus/inventory/models.py:47 | deleting a supplier removes it and unlinks it from every product; nothing else changes |
| InventoryStore.RemoveProductPreserves | Inventory_Plus/inventory/views.py:145-152 | deleting a product keeps the integrity constraints and every remaining level equal to its ledger replay |
| InventoryStore.RemoveCategoryPreserves | Inventory_Plus/inventory/views.py:228-235 | deleting a category keeps the integrity constraints and the ledger invariant |
| InventoryStore.RemoveSupplierPreserves | Inventory_Plus/inventory/views.py:278-285 | deleting a supplier keeps the integrity constraints and the ledger invariant |
| InventoryStore.Store.DeleteProduct | Inventory_Plus/inventory/views.py:145-152 | refused unless admin or staff; deletes iff granted and the product exists; the new state is `RemoveProduct` of the old one; the invariant is kept |
| InventoryStore.Store.DeleteCategory | Inventory_Plus/inventory/views.py:228-235 | as for products, with `RemoveCategory` |
| InventoryStore.Store.DeleteSupplier | Inventory_Plus/inventory/views.py:278-285 | as for products, with `RemoveSupplier` |
| InventoryStore.Store.ImportView | Inventory_Plus/inventory/views.py:352-365 | the access decision is `Gate` for the import view; the import runs iff access is granted and the upload passes the form (named, non-empty, ending in `.csv`); otherwise the store is unchanged; when it runs, the store and the result are those of `ImportFromCsv` by the signed-in user |
| InventoryStore.Store.ImportFromCsv | Inventory_Plus/inventory/utils.py:99-277 | the in-place import leaves the store and returns the result that the functional `ImportFromCsv` gives, and keeps the store's invariant |
| InventoryStore.Store.ImportRecords | Inventory_Plus/inventory/utils.py:161-259 | the loop over the records, numbered from 2, ends with the database, messages and count that `ImportRows` gives |
| InventoryStore.Store.ImportNext | Inventory_Plus/inventory/utils.py:164-259 | one record imported as `ImportRow` gives, keeping the store's invariant, with a created product's opening level set to its imported stock |
| InventoryStore.Store.ImportRecord | Inventory_Plus/inventory/utils.py:165-185 | builds `mapped_row`, then the name, SKU and duplicate checks, with the outcome of `ImportRow` |
| InventoryStore.Store.SaveRecord | Inventory_Plus/inventory/utils.py:187-231 | for a row with a name and a new SKU: category get-or-create, number coercion, save (or the save error), then suppliers, as `ImportRow` gives |
| InventoryStore.Store.AttachRecordSuppliers | Inventory_Plus/inventory/utils.py:233-253 | the supplier step in place, as `AttachSuppliers` gives |
| InventoryStore.Store.LinkSupplierNames | Inventory_Plus/inventory/utils.py:237-249 | the loop over supplier names in place, as `LinkSuppliers` gives |
| InventoryStore.BuildMappedRow | Inventory_Plus/inventory/utils.py:166-170 | the loop building `mapped_row` yields `MappedRowOf` of the reader row |
| InventoryStore.ImportRowConsistent | Inventory_Plus/inventory/utils.py:221-231 | one imported row keeps the integrity constraints and the ledger invariant, with a created product starting from its imported level |
| CsvRows.LastItemWins | Inventory_Plus/inventory/utils.py:167-170 | a field's value in `mapped_row` is the stripped cell of the last item mapping to it |
| CsvRows.LaterColumnWins | Inventory_Plus/inventory/utils.py:167-170 | under a header without repeated names, every named column reaches its field; of several columns mapping to one field, the rightmost wins; a cell past a short record's end reads as empty |
| CsvRows.RepeatedHeaderQuirk | Inventory_Plus/inventory/utils.py:167-170 | with header `Name, Product Name, Name`, the dictionary keeps the first position of `Name` but its last value, so `Product Name`'s cell is the row's name |
| CsvRows.UnlistedHeaderLowered | Inventory_Plus/inventory/utils.py:169 | a header whose stripped form is not a synonym maps to its stripped, lower-cased form |
| CsvRows.CapitalisedFieldName | Inventory_Plus/inventory/utils.py:169 | `NAME` still reaches the field `name` |
| CsvRows.CapitalisedSynonym | Inventory_Plus/inventory/utils.py:136-169 | `PRICE` is not a synonym and becomes the field `price`, which the importer never reads |
| CsvRows.NameSynonym | Inventory_Plus/inventory/utils.py:118 | `Product Name` maps to the field `name` |
| CsvRows.CellText | Inventory_Plus/inventory/utils.py:170 | a missing cell is stored as empty; every stored value has no white space at its ends |
| CsvImport.RowMessage | Inventory_Plus/inventory/utils.py:173 | every row message starts with `Row ` |
| CsvImport.PriceOf | Inventory_Plus/inventory/utils.py:194-201 | the price is never negative; blank is 0 with no warning; a warning is given iff the text is not blank and is not a number or is negative, and a warned price is 0; an invalid price gets the format warning and a negative one the negative-price warning; otherwise it is the number stored with two places |
| CsvImport.StockOf | Inventory_Plus/inventory/utils.py:203-210 | as for the price, but the number is truncated toward zero, a warned stock is 0, and a number whose truncation is negative gets the negative-stock warning |
| CsvImport.ReorderOf | Inventory_Plus/inventory/utils.py:212-219 | as for the stock, with default 10 for blank, invalid and negative values; a negative one gets the negative-reorder warning |
| CsvImport.NegativeFractionTruncatesToZero | Inventory_Plus/inventory/utils.py:204-207 | `-0.5` is stock 0 with no warning, because the check comes after truncation |
| CsvImport.Warnings | Inventory_Plus/inventory/utils.py:194-219 | one row message per warning given, and no other |
| CsvImport.RowWarnings | Inventory_Plus/inventory/utils.py:194-219 | a row's coercion messages are exactly one per warned field (price, stock, reorder level), each naming its row |
| CsvImport.CleanNames | Inventory_Plus/inventory/utils.py:236-238 | supplier names are non-empty, not `nan`, stripped, and no more than the pieces |
| CsvImport.CleanNamesExact | Inventory_Plus/inventory/utils.py:236-238 | the names are exactly the stripped pieces that are neither empty nor `nan` |
| CsvImport.SupplierNames | Inventory_Plus/inventory/utils.py:236 | the names from the field hold no comma and are stripped, non-empty and not `nan` |
| CsvImport.PlaceholderEmail | Inventory_Plus/inventory/utils.py:242 | a created supplier's e-mail ends in `@example.com` and its local part has no space or dot |
| CsvImport.LinkSuppliers | Inventory_Plus/inventory/utils.py:237-249 | on success every name exists as a supplier and is linked to the product; existing suppliers, other products, categories and the ledger are unchanged; a new supplier gets the placeholder details; the only failure is the e-mail uniqueness error |
| CsvImport.WithCategory | Inventory_Plus/inventory/utils.py:188-190 | a non-blank category exists afterwards; existing categories are unchanged; the only new one is that name with an empty description |
| CsvImport.NewProduct | Inventory_Plus/inventory/utils.py:221-230 | the saved product carries the row's name, SKU, category and description, the coerced numbers, no suppliers and its creator, and meets the column constraints |
| CsvImport.AttachSuppliers | Inventory_Plus/inventory/utils.py:233-253 | a blank, `nan` or `null` field changes nothing; otherwise a warning is given iff linking fails, and it is the row's supplier error with the e-mail uniqueness text; without it every named supplier exists and is linked; the product's other fields are unchanged |
| CsvImport.ImportRow | Inventory_Plus/inventory/utils.py:165-259 | a missing name gives exactly the name message and changes nothing; then the SKU, then an existing SKU, likewise; the row counts iff it has a name and a new SKU and the save succeeds; every message names the row |
| CsvImportFacts.LinkSuppliersKeepsValid | Inventory_Plus/inventory/utils.py:237-249 | linking suppliers keeps the integrity constraints, including unique e-mails |
| CsvImportFacts.AttachSuppliersFrame | Inventory_Plus/inventory/utils.py:233-253 | the supplier step keeps the database valid and changes only the product's links and new suppliers |
| CsvImportFacts.ImportRowMessages | Inventory_Plus/inventory/utils.py:192-259 | for a row with a name and a new SKU, the coercion warnings come first; a failed save adds exactly the unexpected-error message after them; a saved row adds at most the supplier error |
| CsvImportFacts.ImportRowSavesProduct | Inventory_Plus/inventory/utils.py:221-249 | a created product is the row's product (fields, coerced numbers, creator) with only its supplier links added; with no supplier warning, every named supplier is linked |
| CsvImportFacts.ImportRowFrame | Inventory_Plus/inventory/utils.py:165-259 | one row keeps the database valid and the ledger, leaves existing products, categories and suppliers as they were, and adds exactly its own SKU when it counts |
| CsvImportFacts.ImportRowsFacts | Inventory_Plus/inventory/utils.py:164-259 | the rows keep the database valid and the ledger untouched, keep existing products, add exactly `count` products, and every message starts with `Row ` |
| CsvImportFacts.AllMessagesCounted | Inventory_Plus/inventory/utils.py:266 | when every message starts with `Row `, the messages containing `Row` are all of them |
| CsvImportFacts.ImportResultFacts | Inventory_Plus/inventory/utils.py:262-277 | `success` iff `count > 0`; `count` products were added; `total_processed` is `count` plus the number of messages; a reading failure gives `success` false, `count` 0, no errors and the `File reading error` text, while the products of the rows read before it stay added |
| CsvImportFacts.BlankRecordSkipped | Inventory_Plus/inventory/utils.py:164 | a record with no cells is skipped without taking a row number |
| CsvImportFacts.ImportRowsStep | Inventory_Plus/inventory/utils.py:164 | a non-blank first record is imported as row `n`, before the rest from `n + 1` |
| CsvImportFacts.TwoRecords | Inventory_Plus/inventory/utils.py:164 | two records are imported as rows 2 and 3, in order |
| CsvImportFacts.RepeatedSkuRejected | Inventory_Plus/inventory/utils.py:183-185 | a row repeating the SKU created by an earlier row gets the duplicate message and leaves the database unchanged |
| CsvImportFacts.RepeatedSkuInFileRejected | Inventory_Plus/inventory/utils.py:183-185 | in a file whose first two rows share a new SKU, one product is created and the last message is the duplicate message for row 3 |
| CsvImportFacts.NoSupplierMarkers | Inventory_Plus/inventory/utils.py:234 | blank, `nan` and `null` in any case mean no suppliers; `NaN` does not |
| CsvValidation.HeaderCells | Inventory_Plus/inventory/utils.py:300 | the validator's headers are never empty and are comma-free stripped cells |
| CsvValidation.ValidateCsvFile | Inventory_Plus/inventory/utils.py:279-310 | valid iff the name ends in `.csv`, the size is at most 5 MiB, the text decodes, has a line feed and has a name header; each failure gives its own message, in the order of the checks; on success `row_count` is the number of lines minus one |
| CsvValidation.SizeLimitInclusive | Inventory_Plus/inventory/utils.py:284-285 | exactly 5 MiB passes the size check and one byte more does not |
| CsvExport.Escape | Inventory_Plus/inventory/utils.py:68 | every quote is doubled: the field grows by its number of quotes, and the quotes double |
| CsvExport.UnescapeEscape | Inventory_Plus/inventory/utils.py:68 | reading back an escaped field gives the field |
| CsvExport.Quote | Inventory_Plus/inventory/utils.py:68 | a field needing quotes is written quoted and reads back exactly; any other field is written as is |
| CsvExport.RenderRow | Inventory_Plus/inventory/utils.py:68-71 | every written row ends in CR LF |
| CsvExport.SortNames | Inventory_Plus/inventory/utils.py:73 | a product's supplier names are listed each once, in name order |
| CsvExport.StampValue | Inventory_Plus/inventory/utils.py:64 | the `%Y%m%d` stamp reads back as the date, year first |
| CsvExport.ExportFileName | Inventory_Plus/inventory/utils.py:64 | the attachment is named `<name>_<stamp>.csv` |
| CsvExport.ExportRow | Inventory_Plus/inventory/utils.py:70-95 | a product export writes name, SKU, category, suppliers, price, stock, reorder level and status; any other export writes name, SKU, category, price, stock and total value |
| CsvExport.ExportToCsv | Inventory_Plus/inventory/utils.py:62-97 | the download is the mark, the header of the schema chosen by the name, then one rendered row per product in the given order |
| ExportReimport.NameHeadersAgree | Inventory_Plus/inventory/utils.py:301 | the validator's name headers are exactly the importer's synonyms of `name` |
| ExportReimport.ExportFirstLine | Inventory_Plus/inventory/utils.py:66-71 | an export's first line is the mark, then the column names joined by commas, then the row's carriage return |
| ExportReimport.ExportHeaderCells | Inventory_Plus/inventory/utils.py:296-300 | the validator reads an export's header as its column names, the first carrying the mark |
| ExportReimport.ExportFailsValidation | Inventory_Plus/inventory/utils.py:296-305 | an exported file, under its own attachment name and of an allowed size, is rejected for want of a name column |
| ExportReimport.NamelessHeaderImportsNothing | Inventory_Plus/inventory/utils.py:172-174 | under a header with no name column, an import changes nothing, creates nothing, and reports each non-blank record, numbered from 2, as lacking a name |
| ExportReimport.ExportedFileImportsNothing | Inventory_Plus/inventory/utils.py:169-174 | re-importing the rows of an exported file creates nothing and reports every row as lacking a name |
| Numbers.Truncate | Inventory_Plus/inventory/utils.py:204 | `int()` of a float truncates toward zero |
| Numbers.QuantizeCents | Inventory_Plus/inventory/models.py:49 | a price stored with two places is within half a hundredth of the value, and a tie goes to the even hundredth |
| Numbers.IntTextRoundTrip | Inventory_Plus/inventory/utils.py:80 | `float(str(n))` is `n` for every integer the export writes |
| Numbers.MoneyTextRoundTrip | Inventory_Plus/inventory/utils.py:79 | a two-place price written by the export parses back to the same value and is stored again unchanged |
| Text.Split | Inventory_Plus/inventory/utils.py:296 | `split` yields one more piece than there are separators, none containing it |
| Text.JoinSplit | Inventory_Plus/inventory/utils.py:236 | joining the pieces of a split gives the text back |
| Text.StripIdempotent | Inventory_Plus/inventory/utils.py:169-170 | stripping twice is stripping once |

## Left out

- The e-mail alerts (`send_low_stock_alert`, `send_expiry_alert`): mail transport. The stock update only returns whether an alert is requested.
- Byte decoding and CSV tokenising of the upload, which are standard library. The import takes the header and records the reader produced, plus an optional reading error, which yields the file-level failure. The validator takes the decoded text, or the decoding error.
- Python float specifics: `inf`, `nan`, underscores in literals, decimal digits other than ASCII `0`-`9` (`float` accepts any Unicode decimal digit, so such a price, stock or reorder level gets the invalid-value warning and the default in the model) and binary rounding. Numbers are parsed as exact decimals (sign, digits with an optional point, optional exponent). Prices are integer hundredths.
- `max_digits=10` on prices and every `max_length` of a text column: over-long values are accepted.
- Unicode case mapping: `lower()` changes ASCII letters only.
- The web layer: rendering, flash messages, redirects and pagination, and the dashboard and report aggregates (`dashboard`, `inventory_report`, `supplier_report`).
- Concurrency: the get-or-create races and the absence of a transaction around the save and the ledger insert are not modelled. The writes happen one after the other, and a failure between them is not modelled.
- The clock: today's date is a parameter. `Date` is limited to four-digit years.
- Stock.StockUpdate: levels and quantities are unbounded integers. The `quantity_in_stock` and `quantity` columns are integer fields (Inventory_Plus/inventory/models.py:50, 93) whose range the database bounds, so a stock-in past that bound fails on save and changes nothing. The same holds for `InventoryStore.Store.UpdateStock` and for imported stock values.
- Forms.CleanImportForm: a request with no file part at all (the field's "This field is required.") is not told apart from an upload without a name.
- The import view's result handling reads `result['error']`, which exists only for file-level failures. The model returns the result and does not reproduce the resulting `KeyError`.
- Product create and update views (`ProductCreateView`, `ProductUpdateView`): only their form's `clean` is modelled. Editing a product through its form can set the stock directly, and this bypasses the ledger invariant.
- Category and supplier create and update views: only their access guard is modelled, not their forms.
- Database identities: products are identified by SKU, and categories and suppliers by name. The list filters by category and supplier name rather than by id.
- Supplier names are unique in the model, because the import finds suppliers by name. The supplier table itself does not enforce this.
- ImportRow: the save error of a product (`product.save()` failing) is an input given per row number, not derived. The only supplier failure modelled is a taken placeholder e-mail, with the wording of the SQLite driver.
- CsvValidation.ValidateCsvFile: the header line is split at every comma without interpreting quotes, as the code does. Other exceptions inside the validator are not modelled.
- CsvExport.ExportToCsv: the response body is modelled as one string, not as a buffer written piece by piece.
- Admin site, account views and forms, and URL configuration: configuration of the framework, outside the inventory core.
