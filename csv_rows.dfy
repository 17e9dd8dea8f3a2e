/** How the importer turns one CSV record into the fields it reads: `csv.DictReader` pairs the
    header with the record's cells, and the importer renames each header through its synonym
    table into `mapped_row`. */
module CsvRows {
  import opened Text

  /** A cell of a `DictReader` row: `None` is the `restval` given to header columns the record
      is too short to reach. */
  type Cell = Option<string>

  /** A `DictReader` row: a dictionary in insertion order, as (key, value) items. */
  type Items = seq<(string, Cell)>

  function CellAt(record: seq<string>, i: nat): Cell {
    if i < |record| then Some(record[i]) else None
  }

  predicate HasKey(items: Items, k: string) {
    exists i :: 0 <= i < |items| && items[i].0 == k
  }

  /** A dictionary holds each key once. */
  predicate DistinctKeys(items: Items) {
    forall i, j :: 0 <= i < j < |items| ==> items[i].0 != items[j].0
  }

  /** Dictionary assignment `d[k] = v`: an existing key keeps its position and takes the new
      value; a new key goes at the end. */
  function Assign(items: Items, k: string, v: Cell): (r: Items)
    requires DistinctKeys(items)
    ensures DistinctKeys(r)
    ensures |r| == |items| + (if HasKey(items, k) then 0 else 1)
    ensures forall i :: 0 <= i < |items| ==> r[i].0 == items[i].0
    ensures forall i :: 0 <= i < |items| && items[i].0 != k ==> r[i] == items[i]
    ensures forall i :: 0 <= i < |items| && items[i].0 == k ==> r[i] == (k, v)
    ensures !HasKey(items, k) ==> r[|items|] == (k, v)
  {
    if items == [] then [(k, v)]
    else if items[0].0 == k then
      assert HasKey(items, k) by { assert items[0].0 == k; }
      [(k, v)] + items[1..]
    else
      assert HasKey(items, k) <==> HasKey(items[1..], k) by {
        if HasKey(items, k) {
          var i :| 0 <= i < |items| && items[i].0 == k;
          assert items[1..][i - 1].0 == k;
        }
        if HasKey(items[1..], k) {
          var i :| 0 <= i < |items[1..]| && items[1..][i].0 == k;
          assert items[i + 1].0 == k;
        }
      }
      [items[0]] + Assign(items[1..], k, v)
  }

  /** `DictReader`'s row: each header name in turn is assigned the cell below it, or `None`
      past the end of the record. Cells beyond the header go under the key `None`, which the
      importer skips, so they are not kept. */
  function DictItems(header: seq<string>, record: seq<string>): (r: Items)
    ensures forall i :: 0 <= i < |r| ==> r[i].0 in header
    ensures DistinctKeys(r)
  {
    if header == [] then []
    else
      var init := DictItems(header[..|header| - 1], record);
      Assign(init, header[|header| - 1], CellAt(record, |header| - 1))
  }

  /** With distinct header names, the row holds each column's own cell, in column order. */
  lemma {:induction false} DistinctHeaderItems(header: seq<string>, record: seq<string>)
    requires forall i, j :: 0 <= i < j < |header| ==> header[i] != header[j]
    ensures DictItems(header, record) == seq(|header|, i requires 0 <= i < |header| => (header[i], CellAt(record, i)))
  {
    if header != [] {
      var init := header[..|header| - 1];
      DistinctHeaderItems(init, record);
    }
  }

  /** The importer's synonym table from header names to field names, listed field by field:
      the field a header stands for, if the table has it. */
  function HeaderMapping(key: string): Option<string> {
    if key in {"Name", "name", "Product Name", "product_name"} then Some("name")
    else if key in {"SKU", "sku", "Product Code", "Code"} then Some("sku")
    else if key in {"Category", "category", "Product Category"} then Some("category")
    else if key in {"Description", "description", "Product Description"} then Some("description")
    else if key in {"Unit Price", "unit_price", "Price", "price", "Cost"} then Some("unit_price")
    else if key in {"Stock", "stock", "quantity_in_stock", "Quantity", "quantity", "Qty"} then Some("quantity_in_stock")
    else if key in {"Reorder Level", "reorder_level", "reorder", "Reorder", "Min Stock"} then Some("reorder_level")
    else if key in {"Suppliers", "suppliers", "Supplier", "supplier", "Vendor", "vendors"} then Some("suppliers")
    else None
  }

  /** The field names the importer reads. */
  const FieldNames: set<string> :=
    {"name", "sku", "category", "description", "unit_price", "quantity_in_stock", "reorder_level", "suppliers"}

  /** The field a header name stands for: its stripped form looked up in the synonym table,
      otherwise the header lower-cased and stripped. */
  function MappedKey(raw: string): string {
    var key := Strip(raw);
    if HeaderMapping(key).Some? then HeaderMapping(key).value else Strip(Lower(raw))
  }

  /** The value stored for a cell: stripped, with a missing cell read as empty. */
  function CellText(v: Cell): (s: string)
    ensures v.None? ==> s == ""
    ensures s == [] || (!IsSpace(s[0]) && !IsSpace(s[|s| - 1]))
  {
    if v.None? then "" else Strip(v.value)
  }

  /** `mapped_row`: the items are visited in order, items with an empty key are skipped, and a
      later item overwrites an earlier one that maps to the same field. */
  function MappedRowOf(items: Items): map<string, string>
  {
    if items == [] then map[]
    else
      var m := MappedRowOf(items[..|items| - 1]);
      var (k, v) := items[|items| - 1];
      if k != "" then m[MappedKey(k) := CellText(v)] else m
  }

  /** The `mapped_row` of a record under the given header. */
  function MappedRow(header: seq<string>, record: seq<string>): map<string, string> {
    MappedRowOf(DictItems(header, record))
  }

  /** `mapped_row.get(k)`, with a missing field read as empty (both are false in the
      importer's tests). */
  function Field(m: map<string, string>, k: string): string {
    if k in m then m[k] else ""
  }

  /** The value of a field is that of the last item mapping to it. */
  lemma {:induction false} LastItemWins(items: Items, j: nat)
    requires j < |items| && items[j].0 != ""
    requires forall i :: j < i < |items| ==> items[i].0 == "" || MappedKey(items[i].0) != MappedKey(items[j].0)
    ensures MappedKey(items[j].0) in MappedRowOf(items)
    ensures MappedRowOf(items)[MappedKey(items[j].0)] == CellText(items[j].1)
  {
    if j < |items| - 1 {
      var init := items[..|items| - 1];
      assert init[j] == items[j];
      forall i | j < i < |init|
        ensures init[i].0 == "" || MappedKey(init[i].0) != MappedKey(init[j].0)
      {
        assert init[i] == items[i];
      }
      LastItemWins(init, j);
      var last := items[|items| - 1];
      assert last.0 == "" || MappedKey(last.0) != MappedKey(items[j].0);
    }
  }

  /** Every named column reaches the field it maps to, and when several columns of a header
      without repeated names map to the same field, the rightmost one's cell is kept; a cell
      past the end of a short record is read as empty. */
  lemma LaterColumnWins(header: seq<string>, record: seq<string>, j: nat)
    requires forall i, k :: 0 <= i < k < |header| ==> header[i] != header[k]
    requires j < |header| && header[j] != ""
    requires forall i :: j < i < |header| ==> header[i] == "" || MappedKey(header[i]) != MappedKey(header[j])
    ensures MappedKey(header[j]) in MappedRow(header, record)
    ensures MappedRow(header, record)[MappedKey(header[j])] == CellText(CellAt(record, j))
    ensures j >= |record| ==> MappedRow(header, record)[MappedKey(header[j])] == ""
  {
    DistinctHeaderItems(header, record);
    LastItemWins(DictItems(header, record), j);
  }

  /** Lower-casing keeps white space, so it commutes with stripping. */
  lemma {:induction false} LowerStrip(s: string)
    ensures Lower(Strip(s)) == Strip(Lower(s))
  {
    LowerTrimLeft(s);
    LowerTrimRight(TrimLeft(s));
  }

  lemma LowerKeepsSpace(c: char)
    ensures IsSpace(LowerChar(c)) <==> IsSpace(c)
  {
  }

  lemma {:induction false} LowerTrimLeft(s: string)
    ensures Lower(TrimLeft(s)) == TrimLeft(Lower(s))
  {
    if s != [] {
      var l := Lower(s);
      LowerKeepsSpace(s[0]);
      assert l[0] == LowerChar(s[0]);
      if IsSpace(s[0]) {
        LowerTrimLeft(s[1..]);
        assert l[1..] == Lower(s[1..]);
        assert TrimLeft(l) == TrimLeft(l[1..]);
      } else {
        assert TrimLeft(s) == s;
        assert TrimLeft(l) == l;
      }
    }
  }

  lemma {:induction false} LowerTrimRight(s: string)
    ensures Lower(TrimRight(s)) == TrimRight(Lower(s))
  {
    if s != [] {
      var l := Lower(s);
      var n := |s| - 1;
      LowerKeepsSpace(s[n]);
      assert l[n] == LowerChar(s[n]);
      if IsSpace(s[n]) {
        LowerTrimRight(s[..n]);
        assert TrimRight(s) == TrimRight(s[..n]);
        LowerPrefix(s, n);
        assert TrimRight(l) == TrimRight(l[..n]);
      } else {
        assert TrimRight(s) == s;
        assert TrimRight(l) == l;
      }
    }
  }

  lemma LowerPrefix(s: string, n: nat)
    requires n <= |s|
    ensures Lower(s)[..n] == Lower(s[..n])
  {
    assert forall i | 0 <= i < n :: Lower(s)[..n][i] == Lower(s[..n])[i];
  }

  /** A header outside the synonym table is read lower-cased and stripped. */
  lemma UnlistedHeaderLowered(raw: string)
    requires HeaderMapping(Strip(raw)).None?
    ensures MappedKey(raw) == Lower(Strip(raw))
  {
    LowerStrip(raw);
  }

  /** A field name written in capitals still reaches its field. */
  lemma CapitalisedFieldName()
    ensures MappedKey("NAME") == "name"
  {
    StripNoEdgeSpace("NAME");
    NotListed("NAME");
    LowerConstant("NAME", "name");
    StripNoEdgeSpace("name");
  }

  /** A synonym written in capitals does not: `PRICE` is read as a field `price`, which the
      importer never looks at. */
  lemma CapitalisedSynonym()
    ensures MappedKey("PRICE") == "price"
  {
    StripNoEdgeSpace("PRICE");
    NotListed("PRICE");
    LowerConstant("PRICE", "price");
    StripNoEdgeSpace("price");
  }

  lemma NotListed(raw: string)
    requires raw in {"NAME", "PRICE"}
    ensures HeaderMapping(raw).None?
  {
  }

  lemma LowerConstant(upper: string, lower: string)
    requires (upper, lower) in {("NAME", "name"), ("PRICE", "price")}
    ensures Lower(upper) == lower
  {
    var l := Lower(upper);
    assert forall i | 0 <= i < |l| :: l[i] == lower[i];
  }

  /** A synonym of the name column. */
  lemma NameSynonym(h: string)
    requires h == "Product Name"
    ensures MappedKey(h) == "name"
  {
    StripNoEdgeSpace(h);
    assert HeaderMapping(h) == Some("name");
  }

  /** With a repeated header name the dictionary keeps the name's first position but its last
      value, so a different synonym standing between the two copies wins even though the
      second copy is further right. */
  lemma RepeatedHeaderQuirk(header: seq<string>, record: seq<string>)
    requires header == ["Name", "Product Name", "Name"] && record == ["a", "b", "c"]
    ensures Field(MappedRow(header, record), "name") == "b"
  {
    var items := RepeatedHeaderItems(header, record);
    StripNoEdgeSpace(record[1]);
    NameSynonym(header[1]);
    LastItemWins(items, 1);
  }

  /** The items of that header: the repeated name keeps its first position. */
  lemma RepeatedHeaderItems(header: seq<string>, record: seq<string>) returns (items: Items)
    requires header == ["Name", "Product Name", "Name"] && record == ["a", "b", "c"]
    ensures items == DictItems(header, record)
    ensures items == [("Name", Some("c")), ("Product Name", Some("b"))]
  {
    assert header[..2][..1] == ["Name"];
    assert header[..2] == ["Name", "Product Name"];
    var one: Items := [("Name", Some("a"))];
    assert DictItems(header[..1], record) == one;
    var two := one + [("Product Name", Some("b"))];
    assert !HasKey(one, "Product Name");
    assert DictItems(header[..2], record) == two;
    items := DictItems(header, record);
  }
}
