/** `renderMetadataValue`: a metadata tree as HTML. */
module MetadataRender {
  import opened Wrappers
  import opened HtmlText
  import opened OrderedSet

  /** A metadata value; a number carries its text, `String(number)`. */
  datatype Value =
    | Null
    | Bool(b: bool)
    | Number(text: string)
    | Text(text: string)
    | Array(items: seq<Value>)
    | Object(entries: seq<Entry>)

  datatype Entry = Entry(key: string, value: Value)

  // ---------- Markup ----------

  const BLOCK := "rb-view-metadata__"

  /** The inside of an opening tag with classes. */
  function Tag(element: string, classes: string): string {
    element + (" class=\"" + (classes + "\""))
  }

  const EM := Tag("em", "text-muted")
  const NESTED := Tag("div", BLOCK + "nested")
  const ROW := Tag("div", BLOCK + "nested-row")
  const KEY := Tag("div", BLOCK + "nested-key")
  const CELL := Tag("div", BLOCK + "nested-value")
  const WRAPPER := Tag("div", BLOCK + "table-wrapper")
  const TABLE := Tag("table", "table table-striped table-sm " + (BLOCK + "table"))
  const LIST := Tag("ul", BLOCK + "list")
  const DASH := "\U{2014}"

  /** A template: an opening tag, what it holds, and the closing tag as the template spells it. */
  function Enclose(open: string, inner: string, close: string): string {
    "<" + open + ">" + (inner + ("</" + close + ">"))
  }

  // ---------- Rendering ----------

  predicate IsPrimitive(v: Value) {
    !v.Array? && !v.Object?
  }

  predicate IsFlatObject(v: Value) {
    v.Object? && forall i :: 0 <= i < |v.entries| ==> IsPrimitive(v.entries[i].value)
  }

  /** `String(value)` of a primitive, nothing for one that is shown as a dash. */
  function PrimitiveText(v: Option<Value>): string {
    match v
    case Some(Bool(b)) => if b then "true" else "false"
    case Some(Number(text)) => text
    case Some(Text(text)) => text
    case _ => ""
  }

  function RenderPrimitive(v: Option<Value>): string {
    if PrimitiveText(v) == "" then Enclose(EM, DASH, "em") else Escape(PrimitiveText(v))
  }

  /** `row[key]`. */
  function Lookup(entries: seq<Entry>, key: string): Option<Value> {
    if entries == [] then None
    else if entries[0].key == key then Some(entries[0].value) else Lookup(entries[1..], key)
  }

  function AddKeys(columns: seq<string>, entries: seq<Entry>, n: nat): seq<string>
    requires n <= |entries|
  {
    if n == 0 then columns else Add(AddKeys(columns, entries, n - 1), entries[n - 1].key)
  }

  /** The columns of the first `n` rows. */
  function Columns(rows: seq<seq<Entry>>, n: nat): seq<string>
    requires n <= |rows|
  {
    if n == 0 then [] else AddKeys(Columns(rows, n - 1), rows[n - 1], |rows[n - 1]|)
  }

  function RenderHeader(columns: seq<string>): string {
    if columns == [] then "" else Enclose("th", Escape(columns[0]), "th") + RenderHeader(columns[1..])
  }

  function RenderCells(row: seq<Entry>, columns: seq<string>): string {
    if columns == [] then "" else
      Enclose("td", RenderPrimitive(Lookup(row, columns[0])), "td") + RenderCells(row, columns[1..])
  }

  function RenderRows(rows: seq<seq<Entry>>, columns: seq<string>): string {
    if rows == [] then "" else Enclose("tr", RenderCells(rows[0], columns), "tr") + RenderRows(rows[1..], columns)
  }

  function RenderTable(rows: seq<seq<Entry>>): string {
    var columns := Columns(rows, |rows|);
    if columns == [] then Enclose(EM, DASH, "em") else
      Enclose(WRAPPER, Enclose(TABLE, Enclose("thead", Enclose("tr", RenderHeader(columns), "tr"), "thead")
        + Enclose("tbody", RenderRows(rows, columns), "tbody"), "table"), "div")
  }

  predicate AllText(items: seq<Value>) {
    forall i :: 0 <= i < |items| ==> items[i].Text?
  }

  predicate AllFlat(items: seq<Value>) {
    forall i :: 0 <= i < |items| ==> IsFlatObject(items[i])
  }

  function RowsOf(items: seq<Value>): (rows: seq<seq<Entry>>)
    requires AllFlat(items)
    ensures |rows| == |items| && forall i :: 0 <= i < |items| ==> rows[i] == items[i].entries
  {
    if items == [] then [] else
      assert IsFlatObject(items[0]);
      [items[0].entries] + RowsOf(items[1..])
  }

  function RenderTexts(items: seq<Value>): string
    requires AllText(items)
  {
    if items == [] then "" else
      assert items[0].Text?;
      Enclose("li", Escape(items[0].text), "li") + RenderTexts(items[1..])
  }

  function Render(v: Value): string
    decreases v, 0
  {
    match v
    case Array(items) =>
      if items == [] then Enclose(EM, DASH, "em")
      else if AllText(items) then Enclose(LIST, RenderTexts(items), "ul")
      else if AllFlat(items) then RenderTable(RowsOf(items))
      else Enclose(LIST, RenderItems(items), "ul")
    case Object(entries) =>
      if entries == [] then Enclose(EM, DASH, "em") else Enclose(NESTED, RenderEntries(entries), "div")
    case _ => RenderPrimitive(Some(v))
  }

  function RenderItems(items: seq<Value>): string
    decreases items, 1
  {
    if items == [] then "" else Enclose("li", Render(items[0]), "li") + RenderItems(items[1..])
  }

  function RenderEntries(entries: seq<Entry>): string
    decreases entries, 1
  {
    if entries == [] then "" else
      Enclose(ROW, Enclose(KEY, Escape(entries[0].key), "div") + Enclose(CELL, Render(entries[0].value), "div"), "div")
        + RenderEntries(entries[1..])
  }

  // ---------- The table as the source builds it ----------

  /** The nested loops that fill the column set. */
  method CollectColumns(rows: seq<seq<Entry>>) returns (columns: seq<string>)
    ensures columns == Columns(rows, |rows|)
  {
    columns := [];
    for r := 0 to |rows|
      invariant columns == Columns(rows, r)
    {
      ghost var before := columns;
      for i := 0 to |rows[r]|
        invariant columns == AddKeys(before, rows[r], i)
      {
        if rows[r][i].key !in columns {
          columns := columns + [rows[r][i].key];
        }
      }
    }
  }

  method RenderMetadataTable(rows: seq<seq<Entry>>) returns (html: string)
    ensures html == if rows == [] then Enclose(EM, DASH, "em") else RenderTable(rows)
  {
    if rows == [] {
      return Enclose(EM, DASH, "em");
    }
    var columns := CollectColumns(rows);
    if columns == [] {
      return Enclose(EM, DASH, "em");
    }
    var headerHtml := RenderHeader(columns);
    var rowHtml := RenderRows(rows, columns);
    return Enclose(WRAPPER, Enclose(TABLE, Enclose("thead", Enclose("tr", headerHtml, "tr"), "thead")
      + Enclose("tbody", rowHtml, "tbody"), "table"), "div");
  }

  ghost predicate HasKey(entries: seq<Entry>, n: nat, key: string)
    requires n <= |entries|
  {
    exists i :: 0 <= i < n && entries[i].key == key
  }

  ghost predicate SomeRowHas(rows: seq<seq<Entry>>, n: nat, key: string)
    requires n <= |rows|
  {
    exists r :: 0 <= r < n && HasKey(rows[r], |rows[r]|, key)
  }

  lemma {:induction false} AddKeysAdds(columns: seq<string>, entries: seq<Entry>, n: nat)
    requires n <= |entries| && NoRepeats(columns)
    ensures NoRepeats(AddKeys(columns, entries, n))
    ensures forall key :: key in AddKeys(columns, entries, n) <==> key in columns || HasKey(entries, n, key)
  {
    if n > 0 {
      AddKeysAdds(columns, entries, n - 1);
      forall key ensures key in AddKeys(columns, entries, n) <==> key in columns || HasKey(entries, n, key) {
        assert HasKey(entries, n, key) <==> HasKey(entries, n - 1, key) || entries[n - 1].key == key;
      }
    }
  }

  /** The columns are the union of the rows' keys, each once. */
  lemma {:induction false} ColumnsAreTheUnion(rows: seq<seq<Entry>>, n: nat)
    requires n <= |rows|
    ensures NoRepeats(Columns(rows, n))
    ensures forall key :: key in Columns(rows, n) <==> SomeRowHas(rows, n, key)
  {
    if n > 0 {
      ColumnsAreTheUnion(rows, n - 1);
      AddKeysAdds(Columns(rows, n - 1), rows[n - 1], |rows[n - 1]|);
      forall key ensures key in Columns(rows, n) <==> SomeRowHas(rows, n, key) {
        assert SomeRowHas(rows, n, key) <==>
          SomeRowHas(rows, n - 1, key) || HasKey(rows[n - 1], |rows[n - 1]|, key);
      }
    }
  }

  /** The keys of the first `n` entries. */
  function KeysOf(entries: seq<Entry>, n: nat): seq<string>
    requires n <= |entries|
  {
    if n == 0 then [] else KeysOf(entries, n - 1) + [entries[n - 1].key]
  }

  /** The keys of the first `n` rows, row by row. */
  function AllKeys(rows: seq<seq<Entry>>, n: nat): seq<string>
    requires n <= |rows|
  {
    if n == 0 then [] else AllKeys(rows, n - 1) + KeysOf(rows[n - 1], |rows[n - 1]|)
  }

  lemma {:induction false} AddKeysIsOf(list: seq<string>, entries: seq<Entry>, n: nat)
    requires n <= |entries|
    ensures AddKeys(Of(list), entries, n) == Of(list + KeysOf(entries, n))
  {
    if n == 0 {
      assert list + [] == list;
    } else {
      AddKeysIsOf(list, entries, n - 1);
      var keys := list + KeysOf(entries, n - 1);
      assert list + KeysOf(entries, n) == keys + [entries[n - 1].key];
      assert (keys + [entries[n - 1].key])[..|keys|] == keys;
    }
  }

  lemma {:induction false} ColumnsAreOf(rows: seq<seq<Entry>>, n: nat)
    requires n <= |rows|
    ensures Columns(rows, n) == Of(AllKeys(rows, n))
  {
    if n > 0 {
      ColumnsAreOf(rows, n - 1);
      AddKeysIsOf(AllKeys(rows, n - 1), rows[n - 1], |rows[n - 1]|);
    }
  }

  /** The columns stand in the order in which their keys first appear, row by row. */
  lemma {:induction false} ColumnsInFirstOrder(rows: seq<seq<Entry>>)
    ensures InFirstOrder(Columns(rows, |rows|), AllKeys(rows, |rows|))
  {
    ColumnsAreOf(rows, |rows|);
    OfInFirstOrder(AllKeys(rows, |rows|));
  }
}
