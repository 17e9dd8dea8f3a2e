/** `export_to_csv`: the attachment name and the text of the CSV download of a list of
    products, as written by Python's `csv.writer` with its default dialect. */
module CsvExport {
  import opened Text
  import opened Numbers
  import opened Catalog

  /** The byte-order mark written before the first row. */
  const Bom: string := "\U{FEFF}"

  /** The columns of an export whose name starts with "product". */
  const ProductHeader: seq<string> :=
    ["Name", "SKU", "Category", "Suppliers", "Unit Price", "Stock", "Reorder Level", "Status"]

  /** The columns of any other export. */
  const ValueHeader: seq<string> := ["Name", "SKU", "Category", "Unit Price", "Stock", "Total Value"]

  /** The minimal quoting rule: a field is quoted when it holds the delimiter, the quote
      character or a line break. */
  predicate NeedsQuoting(f: string) {
    ',' in f || '"' in f || '\r' in f || '\n' in f
  }

  /** Doubles every quote character. */
  function Escape(f: string): (r: string)
    ensures |r| == |f| + multiset(f)['"']
    ensures multiset(r)['"'] == 2 * multiset(f)['"']
  {
    if f == [] then []
    else
      assert f == [f[0]] + f[1..];
      (if f[0] == '"' then "\"\"" else [f[0]]) + Escape(f[1..])
  }

  /** A reader's view of the inside of a quoted field: a doubled quote stands for one. */
  function Unescape(s: string): string {
    if s == [] then []
    else if |s| >= 2 && s[0] == '"' && s[1] == '"' then "\"" + Unescape(s[2..])
    else [s[0]] + Unescape(s[1..])
  }

  /** Reading back an escaped field gives the field. */
  lemma {:induction false} UnescapeEscape(f: string)
    ensures Unescape(Escape(f)) == f
  {
    if f != [] {
      var e := Escape(f);
      UnescapeEscape(f[1..]);
      if f[0] == '"' {
        assert e == "\"\"" + Escape(f[1..]);
        assert e[2..] == Escape(f[1..]);
      } else {
        assert e == [f[0]] + Escape(f[1..]);
        assert e[1..] == Escape(f[1..]);
      }
      assert f == [f[0]] + f[1..];
    }
  }

  /** One field as written: a field that needs quoting is enclosed in quotes with its own
      quotes doubled, so that a reader recovers it exactly; any other field is written as is. */
  function Quote(f: string): (r: string)
    ensures !NeedsQuoting(f) ==> r == f
    ensures NeedsQuoting(f) ==> |r| >= 2 && r[0] == '"' && r[|r| - 1] == '"' && Unescape(r[1..|r| - 1]) == f
  {
    if NeedsQuoting(f) then
      UnescapeEscape(f);
      var r := "\"" + Escape(f) + "\"";
      assert r[1..|r| - 1] == Escape(f);
      r
    else f
  }

  function QuoteAll(fields: seq<string>): (r: seq<string>)
    ensures |r| == |fields|
    ensures forall i :: 0 <= i < |fields| ==> r[i] == Quote(fields[i])
  {
    seq(|fields|, i requires 0 <= i < |fields| => Quote(fields[i]))
  }

  /** `writer.writerow(fields)`: the written fields separated by commas, ended by CR LF. */
  function RenderRow(fields: seq<string>): (r: string)
    ensures EndsWith(r, "\r\n")
  {
    var r := Join(QuoteAll(fields), ",") + "\r\n";
    assert r[|r| - 2..] == "\r\n";
    r
  }

  /** Whether the export uses the product columns. */
  predicate IsProductExport(filename: string) {
    StartsWith(filename, "product")
  }

  function HeaderOf(filename: string): seq<string> {
    if IsProductExport(filename) then ProductHeader else ValueHeader
  }

  function CategoryName(p: Product): string {
    if p.category.Some? then p.category.value else ""
  }

  /** `a` sorts before `b` in code-point order, a proper prefix first. */
  predicate Before(a: string, b: string)
    decreases |a|
  {
    if a == [] then b != []
    else b != [] && (a[0] < b[0] || (a[0] == b[0] && Before(a[1..], b[1..])))
  }

  lemma {:induction false} BeforeIrreflexive(a: string)
    ensures !Before(a, a)
    decreases |a|
  {
    if a != [] {
      BeforeIrreflexive(a[1..]);
    }
  }

  lemma {:induction false} BeforeAsymmetric(a: string, b: string)
    ensures Before(a, b) ==> !Before(b, a)
    decreases |a|
  {
    if a != [] && b != [] && a[0] == b[0] {
      BeforeAsymmetric(a[1..], b[1..]);
    }
  }

  lemma {:induction false} BeforeTransitive(a: string, b: string, c: string)
    requires Before(a, b) && Before(b, c)
    ensures Before(a, c)
    decreases |a|
  {
    if a != [] && a[0] == b[0] && b[0] == c[0] {
      BeforeTransitive(a[1..], b[1..], c[1..]);
    }
  }

  /** Any two different names are ordered one way or the other. */
  lemma {:induction false} BeforeTotal(a: string, b: string)
    requires a != b
    ensures Before(a, b) || Before(b, a)
    decreases |a|
  {
    if a != [] && b != [] && a[0] == b[0] {
      assert a == [a[0]] + a[1..] && b == [b[0]] + b[1..];
      BeforeTotal(a[1..], b[1..]);
    }
  }

  predicate IsLeast(m: string, s: set<string>) {
    m in s && forall x <- s :: x == m || Before(m, x)
  }

  /** Every non-empty finite set of names has a first name. */
  lemma {:induction false} LeastExists(s: set<string>)
    requires s != {}
    ensures exists m :: IsLeast(m, s)
    decreases |s|
  {
    var x :| x in s;
    if s == {x} {
      assert IsLeast(x, s);
    } else {
      var rest := s - {x};
      LeastExists(rest);
      var m :| IsLeast(m, rest);
      if Before(m, x) {
        assert IsLeast(m, s);
      } else {
        BeforeTotal(m, x);
        forall y | y in s
          ensures y == x || Before(x, y)
        {
          if y != x && y != m {
            BeforeTransitive(x, m, y);
          }
        }
        assert IsLeast(x, s);
      }
    }
  }

  predicate StrictlySorted(r: seq<string>) {
    forall i, j :: 0 <= i < j < |r| ==> Before(r[i], r[j])
  }

  /** The names of a set in order, each once: the order of `product.suppliers.all()`, whose
      model is ordered by name. */
  ghost function SortedNames(s: set<string>): (r: seq<string>)
    ensures forall x :: x in r <==> x in s
    ensures StrictlySorted(r)
    decreases |s|
  {
    if s == {} then []
    else
      LeastExists(s);
      var m :| IsLeast(m, s);
      var rest := SortedNames(s - {m});
      [m] + rest
  }

  /** There is only one strictly sorted listing of a set of names. */
  lemma {:induction false} SortedUnique(a: seq<string>, b: seq<string>)
    requires StrictlySorted(a) && StrictlySorted(b)
    requires forall x :: x in a <==> x in b
    requires a == [] <==> b == []
    ensures a == b
    decreases |a|
  {
    if a != [] {
      assert a[0] in b;
      assert b != [];
      assert b[0] in a;
      if a[0] != b[0] {
        var i :| 0 <= i < |a| && a[i] == b[0];
        var j :| 0 <= j < |b| && b[j] == a[0];
        assert Before(a[0], b[0]);
        assert Before(b[0], a[0]);
        BeforeAsymmetric(a[0], b[0]);
      }
      forall x
        ensures x in a[1..] <==> x in b[1..]
      {
        if x in a[1..] {
          var i :| 1 <= i < |a| && a[i] == x;
          assert Before(a[0], x);
          BeforeIrreflexive(x);
          assert x in b && x != b[0];
        }
        if x in b[1..] {
          var i :| 1 <= i < |b| && b[i] == x;
          assert Before(b[0], x);
          BeforeIrreflexive(x);
          assert x in a && x != a[0];
        }
      }
      BeforeIrreflexive(a[0]);
      if |a| > 1 {
        assert Before(a[0], a[1]);
        assert a[1] in b[1..];
      }
      if |b| > 1 {
        assert Before(b[0], b[1]);
        assert b[1] in a[1..];
      }
      SortedUnique(a[1..], b[1..]);
      assert a == [a[0]] + a[1..] && b == [b[0]] + b[1..];
    }
  }

  /** Lists the names of a set in order by taking the first remaining name each time. */
  method SortNames(s: set<string>) returns (r: seq<string>)
    ensures r == SortedNames(s)
  {
    r := [];
    var rest := s;
    while rest != {}
      invariant StrictlySorted(r)
      invariant forall x :: x in r <==> x in s && x !in rest
      invariant rest <= s && |r| + |rest| == |s|
      invariant forall x, y :: x in r && y in rest ==> Before(x, y)
      decreases |rest|
    {
      LeastExists(rest);
      var m :| IsLeast(m, rest);
      r := r + [m];
      rest := rest - {m};
    }
    if s != {} {
      var x :| x in s;
      assert x in r && x in SortedNames(s);
    } else {
      assert SortedNames(s) == [] && r == [];
    }
    SortedUnique(r, SortedNames(s));
  }

  /** The cells of one product in an export with the product columns. */
  ghost function ProductRow(p: Product): seq<string> {
    [p.name, p.sku, CategoryName(p), Join(SortedNames(p.suppliers), ", "),
     MoneyText(p.unitPrice), IntToString(p.quantityInStock), IntToString(p.reorderLevel),
     StatusLabel(GetStockStatus(p))]
  }

  /** The cells of one product in any other export. */
  function ValueRow(p: Product): seq<string> {
    [p.name, p.sku, CategoryName(p), MoneyText(p.unitPrice), IntToString(p.quantityInStock),
     MoneyText(GetTotalValue(p))]
  }

  ghost function RowOf(filename: string, p: Product): seq<string> {
    if IsProductExport(filename) then ProductRow(p) else ValueRow(p)
  }

  /** The rendered rows of the products, in order. */
  ghost function Rows(filename: string, products: seq<Product>): string {
    if products == [] then ""
    else Rows(filename, products[..|products| - 1]) + RenderRow(RowOf(filename, products[|products| - 1]))
  }

  /** The whole download: the byte-order mark, the header row and one row per product. */
  ghost function ExportBody(filename: string, products: seq<Product>): string {
    Bom + RenderRow(HeaderOf(filename)) + Rows(filename, products)
  }

  /** The date of the request, which stamps the attachment name. */
  datatype Date = Date(year: int, month: int, day: int)

  /** A calendar date with a four-digit year, as `datetime.now()` gives. */
  predicate ValidDate(d: Date) {
    1000 <= d.year <= 9999 && 1 <= d.month <= 12 && 1 <= d.day <= 31
  }

  function TwoDigits(n: nat): (s: string)
    requires n < 100
    ensures |s| == 2 && AllDigits(s) && DigitsValue(s) == n
  {
    TwoDigitsValue(n);
    [DigitChar(n / 10), DigitChar(n % 10)]
  }

  /** `strftime("%Y%m%d")`. */
  function Stamp(d: Date): (s: string)
    requires ValidDate(d)
    ensures |s| == 8 && AllDigits(s)
  {
    TwoDigits(d.year / 100) + TwoDigits(d.year % 100) + TwoDigits(d.month) + TwoDigits(d.day)
  }

  /** The stamp reads back as the date, year first, so stamps sort like the dates. */
  lemma StampValue(d: Date)
    requires ValidDate(d)
    ensures DigitsValue(Stamp(d)) == d.year * 10000 + d.month * 100 + d.day
  {
    var a, b, c, e := TwoDigits(d.year / 100), TwoDigits(d.year % 100), TwoDigits(d.month), TwoDigits(d.day);
    assert Pow10(2) == 100;
    DigitsAppend(a, b);
    var year := DigitsValue(a + b);
    assert year == d.year by {
      assert year == (d.year / 100) * 100 + d.year % 100;
    }
    DigitsAppend(a + b, c);
    assert DigitsValue(a + b + c) == year * 100 + d.month;
    DigitsAppend(a + b + c, e);
    assert DigitsValue(a + b + c + e) == (year * 100 + d.month) * 100 + d.day;
  }

  /** The value of digits written after others. */
  lemma {:induction false} DigitsAppend(a: string, b: string)
    requires AllDigits(a) && AllDigits(b)
    ensures AllDigits(a + b)
    ensures DigitsValue(a + b) == DigitsValue(a) * Pow10(|b|) + DigitsValue(b)
  {
    var ab := a + b;
    assert AllDigits(ab) by {
      forall i | 0 <= i < |ab|
        ensures IsDigit(ab[i])
      {
        if i < |a| {
          assert ab[i] == a[i];
        } else {
          assert ab[i] == b[i - |a|];
        }
      }
    }
    if b == [] {
      assert ab == a;
    } else {
      var b' := b[..|b| - 1];
      assert ab[..|ab| - 1] == a + b';
      assert AllDigits(b');
      DigitsAppend(a, b');
      var d := b[|b| - 1] as int - '0' as int;
      assert ab[|ab| - 1] == b[|b| - 1];
      assert DigitsValue(ab) == 10 * DigitsValue(a + b') + d;
      assert DigitsValue(b) == 10 * DigitsValue(b') + d;
      assert Pow10(|b|) == 10 * Pow10(|b'|);
      ShiftDigit(DigitsValue(a), Pow10(|b'|), DigitsValue(b'), d);
    }
  }

  lemma ShiftDigit(x: int, p: int, y: int, d: int)
    ensures 10 * (x * p + y) + d == x * (10 * p) + (10 * y + d)
  {
  }

  /** The attachment name: the export's name, an underscore, the date stamp and ".csv". */
  function ExportFileName(filename: string, d: Date): (r: string)
    requires ValidDate(d)
    ensures StartsWith(r, filename + "_") && EndsWith(r, ".csv") && |r| == |filename| + 13
    ensures r[|filename| + 1..|filename| + 9] == Stamp(d)
  {
    var r := filename + "_" + Stamp(d) + ".csv";
    assert r[..|filename| + 1] == filename + "_";
    assert r[|r| - 4..] == ".csv";
    assert r[|filename| + 1..|filename| + 9] == Stamp(d);
    r
  }

  /** The cells written for one product. */
  method ExportRow(productColumns: bool, p: Product) returns (cells: seq<string>)
    ensures productColumns ==> cells == ProductRow(p)
    ensures !productColumns ==> cells == ValueRow(p)
  {
    if productColumns {
      var names := SortNames(p.suppliers);
      cells := [p.name, p.sku, CategoryName(p), Join(names, ", "),
                MoneyText(p.unitPrice), IntToString(p.quantityInStock), IntToString(p.reorderLevel),
                StatusLabel(GetStockStatus(p))];
    } else {
      cells := [p.name, p.sku, CategoryName(p), MoneyText(p.unitPrice), IntToString(p.quantityInStock),
                MoneyText(GetTotalValue(p))];
    }
  }

  lemma RowsStep(filename: string, products: seq<Product>, i: nat)
    requires i < |products|
    ensures Rows(filename, products[..i + 1]) == Rows(filename, products[..i]) + RenderRow(RowOf(filename, products[i]))
  {
    assert products[..i + 1][..i] == products[..i];
  }

  /** `export_to_csv(queryset, filename)` on the day `today`: writes the byte-order mark and the
      header, then one row per product in the order given. */
  method ExportToCsv(filename: string, products: seq<Product>, today: Date) returns (attachment: string, body: string)
    requires ValidDate(today)
    ensures attachment == ExportFileName(filename, today)
    ensures body == ExportBody(filename, products)
  {
    attachment := ExportFileName(filename, today);
    var productColumns := StartsWith(filename, "product");
    var rows := "";
    var i := 0;
    while i < |products|
      invariant 0 <= i <= |products|
      invariant rows == Rows(filename, products[..i])
    {
      var cells := ExportRow(productColumns, products[i]);
      assert cells == RowOf(filename, products[i]);
      RowsStep(filename, products, i);
      rows := rows + RenderRow(cells);
      i := i + 1;
    }
    assert products[..i] == products;
    body := Bom + RenderRow(HeaderOf(filename)) + rows;
  }
}
