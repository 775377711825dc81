/**
 Table column widths: editor-only `colwidth` lists on cells become `width` attributes on `col`
 elements, and the lists are rebuilt from those when a saved table is reopened.
 */
module ColumnWidths {
  import opened Wrappers
  import opened SeqFacts
  import opened JsText
  import opened Decimal
  import opened TableGrid

  // ---------- Attribute values ----------

  /** `tag.toLowerCase() === 'col'`. */
  predicate IsColTag(tag: string) {
    |tag| == 3 && tag[0] in "cC" && tag[1] in "oO" && tag[2] in "lL"
  }

  /** The tag is `col`, in any case; a safe number is at most 2^53-1. */
  lemma {:induction false} ColTagExactly(tag: string)
    ensures IsColTag(tag) <==> Lower(tag) == "col"
    ensures MAX_SAFE == 0x1f_ffff_ffff_ffff
  {
  }

  function FilterWidth(value: Option<string>, tag: string): Option<string> {
    if !IsColTag(tag) || value.None? || !Canonical(value.value) then None
    else if Value(value.value) <= MAX_SAFE then Some(Show(Value(value.value))) else None
  }

  /** The filter accepts exactly the canonical decimals up to 2^53-1, and returns them unchanged. */
  lemma {:induction false} FilterKeepsCanonical(value: Option<string>, tag: string)
    ensures FilterWidth(value, tag).Some? <==>
      IsColTag(tag) && value.Some? && Canonical(value.value) && Value(value.value) <= MAX_SAFE
    ensures FilterWidth(value, tag).Some? ==> FilterWidth(value, tag) == value
    ensures FilterWidth(FilterWidth(value, tag), tag) == FilterWidth(value, tag)
  {
    if FilterWidth(value, tag).Some? {
      ShowValue(value.value);
    }
  }

  lemma {:induction false} FilterKeepsShown(w: nat)
    requires 0 < w <= MAX_SAFE
    ensures FilterWidth(Some(Show(w)), "COL") == Some(Show(w))
    ensures Value(Show(w)) == w
  {
    ValueShow(w);
  }

  predicate WidthTokens(tokens: seq<string>) {
    forall i :: 0 <= i < |tokens| ==> Digits(tokens[i])
  }

  function Values(tokens: seq<string>): (values: seq<nat>)
    requires WidthTokens(tokens)
    ensures |values| == |tokens|
    ensures forall i :: 0 <= i < |tokens| ==> values[i] == Value(tokens[i])
  {
    seq(|tokens|, i requires 0 <= i < |tokens| => Value(tokens[i]))
  }

  function ParseCellWidths(cell: Cell): (widths: Option<seq<nat>>)
    ensures widths.Some? ==> |widths.value| == cell.colSpan
    ensures widths.Some? ==> forall i :: 0 <= i < cell.colSpan ==> widths.value[i] <= MAX_SAFE
  {
    var raw := cell.attrs.colwidth;
    if raw.None? || raw.value == "" then None else
      var tokens := Split(raw.value, ',');
      if |tokens| != cell.colSpan || !WidthTokens(tokens) then None else
        var widths := Values(tokens);
        if forall i :: 0 <= i < |widths| ==> widths[i] <= MAX_SAFE then Some(widths) else None
  }

  function Shown(widths: seq<nat>): (tokens: seq<string>)
    ensures |tokens| == |widths|
    ensures forall i :: 0 <= i < |widths| ==> tokens[i] == Show(widths[i])
  {
    seq(|widths|, i requires 0 <= i < |widths| => Show(widths[i]))
  }

  lemma {:induction false} ParsesTokens(cell: Cell, tokens: seq<string>)
    requires |tokens| == cell.colSpan && WidthTokens(tokens) && cell.attrs.colwidth == Some(Join(tokens, ','))
    requires forall i :: 0 <= i < |tokens| ==> Value(tokens[i]) <= MAX_SAFE
    ensures ParseCellWidths(cell) == Some(Values(tokens))
  {
    forall i | 0 <= i < |tokens| ensures ',' !in tokens[i] {
      assert Digits(tokens[i]);
    }
    SplitJoin(tokens, ',');
    assert Split("", ',') == [""] && !Digits("");
  }

  /** A comma-separated list with one safe width per covered column is read back as written. */
  lemma {:induction false} ColwidthRoundTrip(cell: Cell, widths: seq<nat>)
    requires |widths| == cell.colSpan && forall i :: 0 <= i < |widths| ==> widths[i] <= MAX_SAFE
    requires cell.attrs.colwidth == Some(Join(Shown(widths), ','))
    ensures ParseCellWidths(cell) == Some(widths)
  {
    var tokens := Shown(widths);
    forall i | 0 <= i < |widths| ensures Digits(tokens[i]) && Value(tokens[i]) == widths[i] {
      ValueShow(widths[i]);
    }
    ParsesTokens(cell, tokens);
    assert Values(tokens) == widths;
  }

  /** A list is accepted exactly when it is one safe decimal per covered column, joined by commas; then its values. */
  lemma {:induction false} ParsesExactly(cell: Cell, widths: seq<nat>)
    ensures ParseCellWidths(cell) == Some(widths) <==>
      (forall i :: 0 <= i < |widths| ==> widths[i] <= MAX_SAFE)
      && exists tokens: seq<string> :: |tokens| == cell.colSpan && WidthTokens(tokens)
           && cell.attrs.colwidth == Some(Join(tokens, ',')) && widths == Values(tokens)
  {
    if ParseCellWidths(cell) == Some(widths) {
      JoinSplit(cell.attrs.colwidth.value, ',');
    }
    forall tokens: seq<string> | |tokens| == cell.colSpan && WidthTokens(tokens)
      && cell.attrs.colwidth == Some(Join(tokens, ',')) && widths == Values(tokens)
      && (forall i :: 0 <= i < |widths| ==> widths[i] <= MAX_SAFE)
      ensures ParseCellWidths(cell) == Some(widths)
    {
      ParsesTokens(cell, tokens);
    }
  }

  // ---------- The table and its logical columns ----------

  datatype Table = Table(attrs: Attrs, colgroups: seq<seq<Attrs>>, rows: seq<Row>)

  /** `tableColumns`: the cols of this table's own colgroups, in order. */
  function TableColumns(groups: seq<seq<Attrs>>): seq<Attrs> {
    if groups == [] then [] else groups[0] + TableColumns(groups[1..])
  }

  /** Group by group, and within a group in its own order. */
  lemma {:induction false} ColsInOrder(first: seq<seq<Attrs>>, rest: seq<seq<Attrs>>)
    ensures TableColumns(first + rest) == TableColumns(first) + TableColumns(rest)
    ensures |first| == 1 ==> TableColumns(first) == first[0]
  {
    if first == [] {
      assert first + rest == rest;
    } else {
      ColsInOrder(first[1..], rest);
      assert (first + rest)[1..] == first[1..] + rest;
      Assoc(first[0], TableColumns(first[1..]), TableColumns(rest));
    }
  }

  predicate InTable(rows: seq<Row>, p: Placed) {
    p.row < |rows| && p.index < |rows[p.row].cells|
  }

  function CellAt(rows: seq<Row>, p: Placed): Cell
    requires InTable(rows, p)
  {
    rows[p.row].cells[p.index]
  }

  predicate AllInTable(rows: seq<Row>, cells: seq<Placed>) {
    forall i :: 0 <= i < |cells| ==> InTable(rows, cells[i])
  }

  lemma {:induction false} CellsInTable(rows: seq<Row>)
    ensures AllInTable(rows, CellColumns(rows))
  {
    forall i | 0 <= i < |CellColumns(rows)| ensures InTable(rows, CellColumns(rows)[i]) {
      SpotIsItsCell(rows, |rows|, i);
      PlacedAt(Spots(rows), |Spots(rows)|, i);
    }
  }

  /** The entry for column `c` in a list of widths that starts at `column`. */
  function WidthFor(column: nat, widths: seq<nat>, c: nat): nat {
    if column <= c < column + |widths| then widths[c - column] else 0
  }

  function Lookup(widths: map<nat, nat>, c: nat): nat {
    if c in widths then widths[c] else 0
  }

  /** The width cell `p` measured for column `c`; zero when it measured none. */
  function MeasuredBy(rows: seq<Row>, p: Placed, c: nat): nat
    requires InTable(rows, p)
  {
    var widths := ParseCellWidths(CellAt(rows, p));
    if widths.Some? then WidthFor(p.column, widths.value, c) else 0
  }

  /** The first positive width measured for column `c` by the first `n` cells; zero when there is none. */
  function FirstMeasured(rows: seq<Row>, cells: seq<Placed>, n: nat, c: nat): nat
    requires AllInTable(rows, cells) && n <= |cells|
  {
    if n == 0 then 0 else
      var earlier := FirstMeasured(rows, cells, n - 1, c);
      if earlier > 0 then earlier else MeasuredBy(rows, cells[n - 1], c)
  }

  lemma {:induction false} FirstMeasuredIsFirst(rows: seq<Row>, cells: seq<Placed>, n: nat, c: nat)
    requires AllInTable(rows, cells) && n <= |cells|
    ensures FirstMeasured(rows, cells, n, c) == 0 <==>
      forall i :: 0 <= i < n ==> MeasuredBy(rows, cells[i], c) == 0
    ensures FirstMeasured(rows, cells, n, c) > 0 ==>
      exists i :: 0 <= i < n && MeasuredBy(rows, cells[i], c) == FirstMeasured(rows, cells, n, c)
        && forall j :: 0 <= j < i ==> MeasuredBy(rows, cells[j], c) == 0
    ensures FirstMeasured(rows, cells, n, c) <= MAX_SAFE
  {
    if n > 0 {
      FirstMeasuredIsFirst(rows, cells, n - 1, c);
    }
  }

  function ColumnCount(rows: seq<Row>, cells: seq<Placed>, n: nat): nat
    requires AllInTable(rows, cells) && n <= |cells|
  {
    if n == 0 then 0 else
      var end, earlier := cells[n - 1].column + CellAt(rows, cells[n - 1]).colSpan, ColumnCount(rows, cells, n - 1);
      if earlier < end then end else earlier
  }

  /** Where the cell that is seated as `p` ends. */
  function CellEnd(rows: seq<Row>, p: Placed): nat
    requires InTable(rows, p)
  {
    p.column + CellAt(rows, p).colSpan
  }

  /** The count is the furthest end of a cell: none ends beyond it, and one ends there, unless there is no cell. */
  lemma {:induction false} ColumnCountIsFurthest(rows: seq<Row>, cells: seq<Placed>, n: nat)
    requires AllInTable(rows, cells) && n <= |cells|
    ensures forall i :: 0 <= i < n ==> CellEnd(rows, cells[i]) <= ColumnCount(rows, cells, n)
    ensures n == 0 ==> ColumnCount(rows, cells, n) == 0
    ensures n > 0 ==> exists i :: 0 <= i < n && ColumnCount(rows, cells, n) == CellEnd(rows, cells[i])
  {
    if n > 0 {
      ColumnCountIsFurthest(rows, cells, n - 1);
      assert ColumnCount(rows, cells, n) == CellEnd(rows, cells[n - 1])
          || (n > 1 && ColumnCount(rows, cells, n) == ColumnCount(rows, cells, n - 1));
    }
  }

  /** A cell measured a positive width for a column exactly when its own list has that width at the column's place. */
  lemma {:induction false} MeasuredByExactly(rows: seq<Row>, p: Placed, c: nat, width: nat)
    requires InTable(rows, p) && width > 0
    ensures MeasuredBy(rows, p, c) == width <==>
      exists own, o: nat ::
        ParseCellWidths(CellAt(rows, p)) == Some(own) && o < |own| && c == p.column + o && own[o] == width
  {
    var parsed := ParseCellWidths(CellAt(rows, p));
    if MeasuredBy(rows, p, c) == width {
      assert parsed == Some(parsed.value) && c == p.column + (c - p.column);
    }
  }

  lemma {:induction false} MeasuredInside(rows: seq<Row>, cells: seq<Placed>, n: nat, c: nat)
    requires AllInTable(rows, cells) && n <= |cells|
    ensures FirstMeasured(rows, cells, n, c) > 0 ==> c < ColumnCount(rows, cells, n)
  {
    if n > 0 {
      MeasuredInside(rows, cells, n - 1, c);
    }
  }

  /** The measured width of logical column `c` in the whole table. */
  function Measured(t: Table, c: nat): nat {
    CellsInTable(t.rows);
    FirstMeasured(t.rows, CellColumns(t.rows), |CellColumns(t.rows)|, c)
  }

  function SavedWidth(columns: seq<Attrs>, c: nat): Option<string> {
    if c < |columns| then FilterWidth(columns[c].width, "COL") else None
  }

  /** `Number(width) || 0` of the saved width of column `c`. */
  function SavedNumber(t: Table, c: nat): nat {
    var saved := SavedWidth(TableColumns(t.colgroups), c);
    if saved.Some? then Value(saved.value) else 0
  }

  /** What column `c` should measure once the table is saved: measured first, else what was saved, else nothing. */
  function ColumnWidth(t: Table, c: nat): nat {
    if Measured(t, c) > 0 then Measured(t, c) else SavedNumber(t, c)
  }

  // ---------- Normalising ----------

  function WidthText(t: Table, c: nat): Option<string> {
    if Measured(t, c) > 0 then Some(Show(Measured(t, c))) else SavedWidth(TableColumns(t.colgroups), c)
  }

  function Larger(a: nat, b: nat): nat {
    if a < b then b else a
  }

  /** One entry for every col there is and for every logical column the cells reach. */
  function WidthTexts(t: Table): (widths: seq<Option<string>>)
    ensures |widths| >= |TableColumns(t.colgroups)|
    ensures forall c :: 0 <= c < |widths| ==> widths[c] == WidthText(t, c)
  {
    CellsInTable(t.rows);
    var cells := CellColumns(t.rows);
    var n := Larger(|TableColumns(t.colgroups)|, ColumnCount(t.rows, cells, |cells|));
    seq(n, c requires 0 <= c < n => WidthText(t, c))
  }

  /** Sets the width attribute of col `i`, counted across the groups. */
  function WriteCol(groups: seq<seq<Attrs>>, i: nat, width: Option<string>): (written: seq<seq<Attrs>>)
    requires i < |TableColumns(groups)|
    ensures written != []
  {
    if i < |groups[0]| then [groups[0][i := groups[0][i].(width := width)]] + groups[1..]
    else [groups[0]] + WriteCol(groups[1..], i - |groups[0]|, width)
  }

  /** Appends a new col to the last group. */
  function AppendCol(groups: seq<seq<Attrs>>, width: Option<string>): (written: seq<seq<Attrs>>)
    requires groups != []
    ensures written != []
  {
    groups[..|groups| - 1] + [groups[|groups| - 1] + [Attrs(width, None)]]
  }

  function PutCol(groups: seq<seq<Attrs>>, i: nat, width: Option<string>): (written: seq<seq<Attrs>>)
    requires groups != []
    ensures written != []
  {
    if i < |TableColumns(groups)| then WriteCol(groups, i, width) else AppendCol(groups, width)
  }

  function PutCols(groups: seq<seq<Attrs>>, widths: seq<Option<string>>, n: nat): (written: seq<seq<Attrs>>)
    requires groups != [] && n <= |widths|
    ensures written != []
  {
    if n == 0 then groups else PutCol(PutCols(groups, widths, n - 1), n - 1, widths[n - 1])
  }

  predicate AllNone(widths: seq<Option<string>>) {
    forall i :: 0 <= i < |widths| ==> widths[i].None?
  }

  function WithWidths(t: Table): Table {
    if AllNone(WidthTexts(t)) then t
    else t.(colgroups := PutCols(if t.colgroups == [] then [[]] else t.colgroups, WidthTexts(t), |WidthTexts(t)|))
  }

  function StripAttrs(a: Attrs, tag: string): Attrs {
    Attrs(FilterWidth(a.width, tag), None)
  }

  function StripGroup(group: seq<Attrs>): (stripped: seq<Attrs>)
    ensures |stripped| == |group|
    ensures forall i :: 0 <= i < |group| ==> stripped[i] == StripAttrs(group[i], "COL")
  {
    seq(|group|, i requires 0 <= i < |group| => StripAttrs(group[i], "COL"))
  }

  function StripGroups(groups: seq<seq<Attrs>>): (stripped: seq<seq<Attrs>>)
    ensures |stripped| == |groups|
    ensures forall i :: 0 <= i < |groups| ==> stripped[i] == StripGroup(groups[i])
  {
    seq(|groups|, i requires 0 <= i < |groups| => StripGroup(groups[i]))
  }

  function StripCells(cells: seq<Cell>): (stripped: seq<Cell>)
    ensures |stripped| == |cells|
    ensures forall i :: 0 <= i < |cells| ==> stripped[i] == cells[i].(attrs := StripAttrs(cells[i].attrs, "TD"))
  {
    seq(|cells|, i requires 0 <= i < |cells| => cells[i].(attrs := StripAttrs(cells[i].attrs, "TD")))
  }

  function StripRows(rows: seq<Row>): (stripped: seq<Row>)
    ensures |stripped| == |rows|
    ensures forall i :: 0 <= i < |rows| ==> stripped[i] == rows[i].(cells := StripCells(rows[i].cells))
  {
    seq(|rows|, i requires 0 <= i < |rows| => rows[i].(cells := StripCells(rows[i].cells)))
  }

  function Stripped(t: Table): Table {
    Table(StripAttrs(t.attrs, "TABLE"), StripGroups(t.colgroups), StripRows(t.rows))
  }

  /** The table `normalizeTranslationTableWidths` leaves behind. */
  function Normalized(t: Table): Table {
    Stripped(WithWidths(t))
  }

  // ---------- The normaliser in place ----------

  class TableElement {
    var attrs: Attrs
    var colgroups: seq<seq<Attrs>>
    var rows: seq<Row>

    function View(): Table
      reads this
    {
      Table(attrs, colgroups, rows)
    }

    constructor (t: Table)
      ensures View() == t
    {
      attrs, colgroups, rows := t.attrs, t.colgroups, t.rows;
    }

    /** Records a cell's positive widths in the columns that have none yet. */
    static method MergeWidths(before: map<nat, nat>, column: nat, widths: seq<nat>) returns (after: map<nat, nat>)
      requires 0 !in before.Values
      ensures 0 !in after.Values
      ensures forall c: nat ::
        Lookup(after, c) == if Lookup(before, c) > 0 then Lookup(before, c) else WidthFor(column, widths, c)
    {
      after := before;
      for offset := 0 to |widths|
        invariant forall c: nat :: c in after ==> after[c] > 0
        invariant forall c: nat ::
          Lookup(after, c) == if Lookup(before, c) > 0 || column + offset <= c then Lookup(before, c)
                              else WidthFor(column, widths, c)
      {
        if widths[offset] > 0 && column + offset !in after {
          after := after[column + offset := widths[offset]];
        }
      }
    }

    /** The first measured width in each logical column wins. */
    method MeasureColumns(cells: seq<Placed>) returns (cellWidths: map<nat, nat>)
      requires cells == CellColumns(rows)
      ensures 0 !in cellWidths.Values
      ensures forall c: nat :: Lookup(cellWidths, c) == Measured(View(), c)
    {
      CellsInTable(rows);
      cellWidths := map[];
      for i := 0 to |cells|
        invariant 0 !in cellWidths.Values
        invariant forall c: nat :: Lookup(cellWidths, c) == FirstMeasured(rows, cells, i, c)
      {
        var parsed := ParseCellWidths(CellAt(rows, cells[i]));
        if parsed.Some? {
          cellWidths := MergeWidths(cellWidths, cells[i].column, parsed.value);
        }
      }
    }

    method FilterSaved(columns: seq<Attrs>) returns (widths: seq<Option<string>>)
      ensures |widths| == |columns| && forall c :: 0 <= c < |widths| ==> widths[c] == SavedWidth(columns, c)
    {
      widths := [];
      for i := 0 to |columns|
        invariant |widths| == i
        invariant forall c :: 0 <= c < i ==> widths[c] == SavedWidth(columns, c)
      {
        widths := widths + [FilterWidth(columns[i].width, "COL")];
      }
    }

    method CountColumns(cells: seq<Placed>) returns (columnCount: nat)
      requires AllInTable(rows, cells)
      ensures columnCount == ColumnCount(rows, cells, |cells|)
    {
      columnCount := 0;
      for i := 0 to |cells|
        invariant columnCount == ColumnCount(rows, cells, i)
      {
        columnCount := Larger(columnCount, cells[i].column + CellAt(rows, cells[i]).colSpan);
      }
    }

    /** The width every col is to carry. */
    method CollectWidths() returns (widths: seq<Option<string>>)
      ensures widths == WidthTexts(View())
    {
      var columns := TableColumns(colgroups);
      widths := FilterSaved(columns);
      var cells := TableCellColumns(rows);
      CellsInTable(rows);
      var columnCount := CountColumns(cells);
      while |widths| < columnCount
        invariant |columns| <= |widths| <= Larger(|columns|, columnCount)
        invariant forall c :: 0 <= c < |widths| ==> widths[c] == SavedWidth(columns, c)
      {
        widths := widths + [None];
      }
      var cellWidths := MeasureColumns(cells);
      for index := 0 to |widths|
        invariant |widths| == Larger(|columns|, columnCount)
        invariant forall c :: 0 <= c < index ==> widths[c] == WidthText(View(), c)
        invariant forall c :: index <= c < |widths| ==> widths[c] == SavedWidth(columns, c)
      {
        if index in cellWidths {
          widths := widths[index := Some(Show(cellWidths[index]))];
        }
      }
    }

    /** The first pass: writes the widths to the cols, creating the cols and the colgroup it needs. */
    method WriteWidths()
      modifies this
      ensures View() == WithWidths(old(View()))
    {
      hide WidthTexts, PutCol;
      var widths := CollectWidths();
      if forall i :: 0 <= i < |widths| ==> widths[i].None? {
        return;
      }
      if colgroups == [] {
        colgroups := [[]];
      }
      ghost var groups := colgroups;
      for columnIndex := 0 to |widths|
        invariant colgroups == PutCols(groups, widths, columnIndex)
        invariant attrs == old(attrs) && rows == old(rows)
      {
        colgroups := PutCol(colgroups, columnIndex, widths[columnIndex]);
      }
    }

    static method StripEach(elements: seq<Attrs>, tag: string) returns (stripped: seq<Attrs>)
      ensures |stripped| == |elements|
      ensures forall i :: 0 <= i < |elements| ==> stripped[i] == StripAttrs(elements[i], tag)
    {
      stripped := elements;
      for i := 0 to |elements|
        invariant |stripped| == |elements|
        invariant forall j :: 0 <= j < i ==> stripped[j] == StripAttrs(elements[j], tag)
        invariant forall j :: i <= j < |elements| ==> stripped[j] == elements[j]
      {
        var width := FilterWidth(elements[i].width, tag);
        stripped := stripped[i := Attrs(width, None)];
      }
    }

    static method StripEachCell(cells: seq<Cell>) returns (stripped: seq<Cell>)
      ensures stripped == StripCells(cells)
    {
      stripped := cells;
      for k := 0 to |cells|
        invariant |stripped| == |cells|
        invariant forall j :: 0 <= j < k ==> stripped[j] == cells[j].(attrs := StripAttrs(cells[j].attrs, "TD"))
        invariant forall j :: k <= j < |cells| ==> stripped[j] == cells[j]
      {
        var width := FilterWidth(cells[k].attrs.width, "TD");
        stripped := stripped[k := cells[k].(attrs := Attrs(width, None))];
      }
    }

    /** The second pass, element by element: no `colwidth` is left, and a width only where it is a safe one of a col. */
    method StripWidths()
      modifies this
      ensures View() == Stripped(old(View()))
      ensures Cleaned(old(View()), View())
    {
      attrs := Attrs(FilterWidth(attrs.width, "TABLE"), None);
      for g := 0 to |colgroups|
        invariant attrs == StripAttrs(old(attrs), "TABLE") && rows == old(rows)
        invariant |colgroups| == |old(colgroups)|
        invariant forall h :: 0 <= h < g ==> colgroups[h] == StripGroup(old(colgroups)[h])
        invariant forall h :: g <= h < |colgroups| ==> colgroups[h] == old(colgroups)[h]
      {
        var stripped := StripEach(colgroups[g], "COL");
        assert stripped == StripGroup(colgroups[g]);
        colgroups := colgroups[g := stripped];
      }
      for r := 0 to |rows|
        invariant attrs == StripAttrs(old(attrs), "TABLE") && colgroups == StripGroups(old(colgroups))
        invariant |rows| == |old(rows)|
        invariant forall q :: 0 <= q < r ==> rows[q] == old(rows)[q].(cells := StripCells(old(rows)[q].cells))
        invariant forall q :: r <= q < |rows| ==> rows[q] == old(rows)[q]
      {
        var stripped := StripEachCell(rows[r].cells);
        rows := rows[r := rows[r].(cells := stripped)];
      }
      assert rows == StripRows(old(rows));
      StrippedIsCleaned(old(View()));
    }
  }

  // ---------- What the second pass leaves ----------

  /** A width that survives: a canonical decimal up to 2^53-1. */
  predicate IsSafeWidth(width: Option<string>) {
    width.Some? && Canonical(width.value) && Value(width.value) <= MAX_SAFE
  }

  ghost predicate CleanedCol(was: Attrs, col: Attrs) {
    col.colwidth.None? && col.width == if IsSafeWidth(was.width) then was.width else None
  }

  /** Same elements, same spans; only cols keep a width, and only a safe one; nothing keeps a `colwidth`. */
  ghost predicate Cleaned(was: Table, t: Table) {
    && t.attrs == Attrs(None, None)
    && |t.colgroups| == |was.colgroups| && |t.rows| == |was.rows|
    && (forall g :: 0 <= g < |was.colgroups| ==>
          |t.colgroups[g]| == |was.colgroups[g]|
          && forall i :: 0 <= i < |was.colgroups[g]| ==> CleanedCol(was.colgroups[g][i], t.colgroups[g][i]))
    && (forall r :: 0 <= r < |was.rows| ==>
          t.rows[r].parent == was.rows[r].parent && |t.rows[r].cells| == |was.rows[r].cells|
          && forall k :: 0 <= k < |was.rows[r].cells| ==>
               t.rows[r].cells[k] == was.rows[r].cells[k].(attrs := Attrs(None, None)))
  }

  lemma {:induction false} StrippedCol(a: Attrs)
    ensures CleanedCol(a, StripAttrs(a, "COL"))
  {
    FilterKeepsCanonical(a.width, "COL");
  }

  lemma {:induction false} StrippedIsCleaned(t: Table)
    ensures Cleaned(t, Stripped(t))
  {
    forall g, i | 0 <= g < |t.colgroups| && 0 <= i < |t.colgroups[g]|
      ensures CleanedCol(t.colgroups[g][i], Stripped(t).colgroups[g][i])
    {
      StrippedCol(t.colgroups[g][i]);
    }
  }

  function ViewsOf(tables: seq<TableElement>): (views: seq<Table>)
    reads tables
    ensures |views| == |tables|
    ensures forall i :: 0 <= i < |tables| ==> views[i] == tables[i].View()
  {
    if tables == [] then [] else [tables[0].View()] + ViewsOf(tables[1..])
  }

  /** `normalizeTranslationTableWidths` over the tables of a document: all widths first, then the clean-up. */
  method NormalizeTables(tables: seq<TableElement>)
    requires forall i, j :: 0 <= i < j < |tables| ==> tables[i] != tables[j]
    modifies tables
    ensures forall i :: 0 <= i < |tables| ==> tables[i].View() == Normalized(old(tables[i].View()))
  {
    hide WithWidths, Stripped;
    ghost var was := ViewsOf(tables);
    for n := 0 to |tables|
      invariant forall i :: 0 <= i < |tables| ==>
        tables[i].View() == if i < n then WithWidths(was[i]) else was[i]
    {
      tables[n].WriteWidths();
    }
    for n := 0 to |tables|
      invariant forall i :: 0 <= i < |tables| ==>
        tables[i].View() == if i < n then Normalized(was[i]) else WithWidths(was[i])
    {
      tables[n].StripWidths();
    }
  }

  // ---------- Reading back ----------

  function FindCell(cells: seq<Placed>, r: nat, k: nat): (found: Option<Placed>)
    ensures found.Some? ==> found.value in cells && found.value.row == r && found.value.index == k
    ensures found.None? ==> forall i :: 0 <= i < |cells| ==> !(cells[i].row == r && cells[i].index == k)
  {
    if cells == [] then None
    else if cells[0].row == r && cells[0].index == k then Some(cells[0]) else FindCell(cells[1..], r, k)
  }

  function SavedSlice(t: Table, column: nat, n: nat): (slice: seq<nat>)
    ensures |slice| == n
    ensures forall o :: 0 <= o < n ==> slice[o] == SavedNumber(t, column + o)
  {
    if n == 0 then [] else SavedSlice(t, column, n - 1) + [SavedNumber(t, column + n - 1)]
  }

  function NullIfZero(slice: seq<nat>): Option<seq<nat>> {
    if exists o :: 0 <= o < |slice| && slice[o] > 0 then Some(slice) else None
  }

  /** `readTranslationCellWidths` for cell `k` of row `r`. */
  function ReadCellWidths(t: Table, r: nat, k: nat): Option<seq<nat>> {
    var found := FindCell(CellColumns(t.rows), r, k);
    if found.None? then None else
      CellsInTable(t.rows);
      NullIfZero(SavedSlice(t, found.value.column, CellAt(t.rows, found.value).colSpan))
  }

  lemma {:induction false} SpotIndex(rows: seq<Row>, r: nat, i: nat)
    requires r <= |rows| && i < |SpotsUpTo(rows, r)|
    ensures SpotsUpTo(rows, r)[i].row < r
    ensures i == RowStart(rows, SpotsUpTo(rows, r)[i].row) + SpotsUpTo(rows, r)[i].index
  {
    if i < |SpotsUpTo(rows, r - 1)| {
      SpotIndex(rows, r - 1, i);
    } else {
      RowSpotAt(rows, r - 1, |rows[r - 1].cells|);
    }
  }

  /** Every cell of the table is found, and found where it was seated. */
  lemma {:induction false} FindsEachCell(rows: seq<Row>, i: nat)
    requires i < |CellColumns(rows)|
    ensures FindCell(CellColumns(rows), CellColumns(rows)[i].row, CellColumns(rows)[i].index)
         == Some(CellColumns(rows)[i])
  {
    var cells := CellColumns(rows);
    var found := FindCell(cells, cells[i].row, cells[i].index);
    assert found.Some?;
    var j :| 0 <= j < |cells| && cells[j] == found.value;
    PlacedAt(Spots(rows), |Spots(rows)|, i);
    PlacedAt(Spots(rows), |Spots(rows)|, j);
    SpotIndex(rows, |rows|, i);
    SpotIndex(rows, |rows|, j);
  }

  // ---------- Normalising keeps the grid ----------

  lemma {:induction false} StripKeepsGroups(rows: seq<Row>, r: nat, g: nat)
    requires r < g <= |rows|
    ensures GroupEndFrom(StripRows(rows), r, g) == GroupEndFrom(rows, r, g)
    decreases |rows| - g
  {
    if g < |rows| {
      StripKeepsGroups(rows, r, g + 1);
    }
  }

  lemma {:induction false} StripKeepsRowSpots(rows: seq<Row>, r: nat, n: nat)
    requires r < |rows| && n <= |rows[r].cells|
    ensures RowSpots(StripRows(rows), r, n) == RowSpots(rows, r, n)
  {
    if n > 0 {
      StripKeepsGroups(rows, r, r + 1);
      StripKeepsRowSpots(rows, r, n - 1);
    }
  }

  lemma {:induction false} StripKeepsSpots(rows: seq<Row>, r: nat)
    requires r <= |rows|
    ensures SpotsUpTo(StripRows(rows), r) == SpotsUpTo(rows, r)
  {
    if r > 0 {
      StripKeepsSpots(rows, r - 1);
      StripKeepsRowSpots(rows, r - 1, |rows[r - 1].cells|);
    }
  }

  /** Every cell stays in its column, with its span. */
  lemma {:induction false} NormalizedKeepsCells(t: Table)
    ensures CellColumns(Normalized(t).rows) == CellColumns(t.rows)
    ensures AllInTable(t.rows, CellColumns(t.rows)) && AllInTable(Normalized(t).rows, CellColumns(t.rows))
    ensures forall i :: 0 <= i < |CellColumns(t.rows)| ==>
      CellAt(Normalized(t).rows, CellColumns(t.rows)[i]).colSpan == CellAt(t.rows, CellColumns(t.rows)[i]).colSpan
  {
    StripKeepsSpots(t.rows, |t.rows|);
    CellsInTable(t.rows);
  }

  lemma {:induction false} NothingMeasured(rows: seq<Row>, cells: seq<Placed>, n: nat, c: nat)
    requires AllInTable(rows, cells) && n <= |cells|
    requires forall i :: 0 <= i < n ==> CellAt(rows, cells[i]).attrs.colwidth.None?
    ensures FirstMeasured(rows, cells, n, c) == 0
  {
    if n > 0 {
      NothingMeasured(rows, cells, n - 1, c);
    }
  }

  lemma {:induction false} NormalizedMeasuresNothing(t: Table, c: nat)
    ensures Measured(Normalized(t), c) == 0
  {
    var n := Normalized(t);
    CellsInTable(n.rows);
    NothingMeasured(n.rows, CellColumns(n.rows), |CellColumns(n.rows)|, c);
  }

  // ---------- What the writes leave in the cols ----------

  lemma {:induction false} WriteColColumns(groups: seq<seq<Attrs>>, i: nat, width: Option<string>)
    requires i < |TableColumns(groups)|
    ensures TableColumns(WriteCol(groups, i, width))
         == TableColumns(groups)[i := TableColumns(groups)[i].(width := width)]
  {
    if i >= |groups[0]| {
      WriteColColumns(groups[1..], i - |groups[0]|, width);
    }
  }

  lemma {:induction false} AppendColColumns(groups: seq<seq<Attrs>>, width: Option<string>)
    requires groups != []
    ensures TableColumns(AppendCol(groups, width)) == TableColumns(groups) + [Attrs(width, None)]
  {
    var first, rest := groups[0], groups[1..];
    if rest == [] {
      assert AppendCol(groups, width) == [first + [Attrs(width, None)]];
    } else {
      AppendColColumns(rest, width);
      assert AppendCol(groups, width) == [first] + AppendCol(rest, width);
      Assoc(first, TableColumns(rest), [Attrs(width, None)]);
    }
  }

  /** One write: col `i` carries `width`, and is appended when there was no col `i` yet. */
  lemma {:induction false} PutColColumns(groups: seq<seq<Attrs>>, i: nat, width: Option<string>)
    requires groups != [] && i <= |TableColumns(groups)|
    ensures var columns := TableColumns(PutCol(groups, i, width));
            && |columns| == Larger(|TableColumns(groups)|, i + 1)
            && columns[i].width == width
            && (forall j :: 0 <= j < |columns| && j != i ==> columns[j] == TableColumns(groups)[j])
  {
    if i < |TableColumns(groups)| {
      WriteColColumns(groups, i, width);
    } else {
      AppendColColumns(groups, width);
    }
  }

  /** The first `n` of `columns` carry the given widths; the others are as they were. */
  ghost predicate Carries(columns: seq<Attrs>, was: seq<Attrs>, widths: seq<Option<string>>, n: nat)
    requires n <= |widths|
  {
    && |columns| == Larger(|was|, n)
    && (forall i :: 0 <= i < n ==> columns[i].width == widths[i])
    && (forall i :: n <= i < |columns| ==> columns[i] == was[i])
  }

  lemma {:induction false} CarriesNext(columns: seq<Attrs>, next: seq<Attrs>, was: seq<Attrs>,
      widths: seq<Option<string>>, n: nat)
    requires n < |widths| && Carries(columns, was, widths, n)
    requires |next| == Larger(|columns|, n + 1) && next[n].width == widths[n]
    requires forall i :: 0 <= i < |next| && i != n ==> next[i] == columns[i]
    ensures Carries(next, was, widths, n + 1)
  {
  }

  lemma {:induction false} PutColsColumns(groups: seq<seq<Attrs>>, widths: seq<Option<string>>, n: nat)
    requires groups != [] && n <= |widths|
    ensures Carries(TableColumns(PutCols(groups, widths, n)), TableColumns(groups), widths, n)
  {
    if n > 0 {
      PutColsColumns(groups, widths, n - 1);
      var before := PutCols(groups, widths, n - 1);
      PutColColumns(before, n - 1, widths[n - 1]);
      CarriesNext(TableColumns(before), TableColumns(PutCol(before, n - 1, widths[n - 1])),
        TableColumns(groups), widths, n - 1);
    }
  }

  lemma {:induction false} StripGroupsColumns(groups: seq<seq<Attrs>>)
    ensures |TableColumns(StripGroups(groups))| == |TableColumns(groups)|
    ensures forall i :: 0 <= i < |TableColumns(groups)| ==>
      TableColumns(StripGroups(groups))[i] == StripAttrs(TableColumns(groups)[i], "COL")
  {
    if groups != [] {
      StripGroupsColumns(groups[1..]);
      assert StripGroups(groups)[1..] == StripGroups(groups[1..]);
    }
  }

  lemma {:induction false} WidthTextNumber(t: Table, c: nat)
    ensures FilterWidth(WidthText(t, c), "COL") == WidthText(t, c)
    ensures ColumnWidth(t, c) == if WidthText(t, c).Some? then Value(WidthText(t, c).value) else 0
  {
    CellsInTable(t.rows);
    var cells := CellColumns(t.rows);
    FirstMeasuredIsFirst(t.rows, cells, |cells|, c);
    if Measured(t, c) > 0 {
      FilterKeepsShown(Measured(t, c));
    } else if c < |TableColumns(t.colgroups)| {
      FilterKeepsCanonical(TableColumns(t.colgroups)[c].width, "COL");
    }
  }

  lemma {:induction false} NoTextPastTheEnd(t: Table, c: nat)
    requires c >= |WidthTexts(t)|
    ensures WidthText(t, c).None?
  {
    CellsInTable(t.rows);
    MeasuredInside(t.rows, CellColumns(t.rows), |CellColumns(t.rows)|, c);
  }

  /** When there is any width to save, the cols are exactly the width texts. */
  lemma {:induction false} WrittenColumns(t: Table)
    requires !AllNone(WidthTexts(t))
    ensures Normalized(t).colgroups != []
    ensures |TableColumns(Normalized(t).colgroups)| == |WidthTexts(t)|
    ensures forall c :: 0 <= c < |WidthTexts(t)| ==>
      TableColumns(Normalized(t).colgroups)[c] == StripAttrs(Attrs(WidthTexts(t)[c], None), "COL")
  {
    var widths := WidthTexts(t);
    var groups := if t.colgroups == [] then [[]] else t.colgroups;
    var written := PutCols(groups, widths, |widths|);
    assert TableColumns(groups) == TableColumns(t.colgroups);
    assert Normalized(t).colgroups == StripGroups(written);
    assert Carries(TableColumns(written), TableColumns(groups), widths, |widths|) by {
      PutColsColumns(groups, widths, |widths|);
    }
    StripGroupsColumns(written);
  }

  /** The saved width text of every column after normalising. */
  lemma {:induction false} NormalizedSaves(t: Table, c: nat)
    ensures SavedWidth(TableColumns(Normalized(t).colgroups), c) == WidthText(t, c)
    ensures c < |TableColumns(Normalized(t).colgroups)| ==>
      TableColumns(Normalized(t).colgroups)[c] == Attrs(WidthText(t, c), None)
  {
    WidthTextNumber(t, c);
    if c >= |WidthTexts(t)| {
      NoTextPastTheEnd(t, c);
    }
    if AllNone(WidthTexts(t)) {
      assert Normalized(t).colgroups == StripGroups(t.colgroups);
      StripGroupsColumns(t.colgroups);
      if c < |TableColumns(t.colgroups)| {
        assert WidthTexts(t)[c].None?;
      }
    } else {
      WrittenColumns(t);
    }
  }

  /** The widths of `n` logical columns from `column` on. */
  function WidthSlice(t: Table, column: nat, n: nat): (slice: seq<nat>)
    ensures |slice| == n
    ensures forall o :: 0 <= o < n ==> slice[o] == ColumnWidth(t, column + o)
  {
    if n == 0 then [] else WidthSlice(t, column, n - 1) + [ColumnWidth(t, column + n - 1)]
  }

  lemma {:induction false} NormalizedNumber(t: Table, c: nat)
    ensures SavedNumber(Normalized(t), c) == ColumnWidth(t, c)
  {
    NormalizedSaves(t, c);
    WidthTextNumber(t, c);
  }

  lemma {:induction false} SlicesMatch(n: Table, t: Table, column: nat, size: nat)
    requires forall c: nat :: SavedNumber(n, c) == ColumnWidth(t, c)
    ensures SavedSlice(n, column, size) == WidthSlice(t, column, size)
  {
    if size > 0 {
      SlicesMatch(n, t, column, size - 1);
    }
  }

  lemma {:induction false} NormalizedSlice(t: Table, column: nat, size: nat)
    ensures SavedSlice(Normalized(t), column, size) == WidthSlice(t, column, size)
  {
    forall c: nat ensures SavedNumber(Normalized(t), c) == ColumnWidth(t, c) {
      NormalizedNumber(t, c);
    }
    SlicesMatch(Normalized(t), t, column, size);
  }

  /**
   Reading a cell of a normalised table gives, for every column it covers, the first positive width
   any cell measured for it, else the width its col already had, else zero; and nothing when all are zero.
   */
  lemma {:induction false} ReadAfterNormalize(t: Table, i: nat)
    requires i < |CellColumns(t.rows)|
    ensures var p := CellColumns(t.rows)[i];
            && InTable(t.rows, p)
            && ReadCellWidths(Normalized(t), p.row, p.index)
               == NullIfZero(WidthSlice(t, p.column, CellAt(t.rows, p).colSpan))
  {
    var n, p := Normalized(t), CellColumns(t.rows)[i];
    NormalizedKeepsCells(t);
    FindsEachCell(n.rows, i);
    assert InTable(t.rows, p) && CellAt(n.rows, p).colSpan == CellAt(t.rows, p).colSpan;
    NormalizedSlice(t, p.column, CellAt(t.rows, p).colSpan);
  }

  /** Nothing is read exactly when every covered column is zero. */
  lemma {:induction false} NullExactlyWhenZero(slice: seq<nat>)
    ensures NullIfZero(slice) == None <==> forall o :: 0 <= o < |slice| ==> slice[o] == 0
    ensures NullIfZero(slice).Some? ==> NullIfZero(slice).value == slice
  {
  }

  lemma {:induction false} ReadsItsSlice(t: Table, i: nat)
    requires i < |CellColumns(t.rows)|
    ensures var p := CellColumns(t.rows)[i];
      && InTable(t.rows, p)
      && ReadCellWidths(t, p.row, p.index) == NullIfZero(SavedSlice(t, p.column, CellAt(t.rows, p).colSpan))
  {
    CellsInTable(t.rows);
    FindsEachCell(t.rows, i);
    hide CellColumns, NullIfZero, FindCell;
  }

  /** What `read` says of the cols under a cell: nothing when none is safe, else one number per column. */
  ghost predicate TellsWidths(read: Option<seq<nat>>, columns: seq<Attrs>, column: nat, span: nat) {
    && (read == None <==>
        forall c :: column <= c < column + span && c < |columns| ==> !IsSafeWidth(columns[c].width))
    && (read.Some? ==> |read.value| == span && forall o :: 0 <= o < span ==>
        read.value[o] == if column + o < |columns| && IsSafeWidth(columns[column + o].width)
                         then Value(columns[column + o].width.value) else 0)
  }

  /**
   Reading a seated cell of any table: nothing when none of its columns has a safe width, else one number per
   covered column, that of the col's safe width or zero.
   */
  lemma {:induction false} ReadsSavedWidths(t: Table, i: nat)
    requires i < |CellColumns(t.rows)|
    ensures var p := CellColumns(t.rows)[i];
      && InTable(t.rows, p)
      && TellsWidths(ReadCellWidths(t, p.row, p.index), TableColumns(t.colgroups), p.column,
                     CellAt(t.rows, p).colSpan)
  {
    ReadsItsSlice(t, i);
    hide *;
    var p := CellColumns(t.rows)[i];
    SliceIsSafe(t, p.column, CellAt(t.rows, p).colSpan);
    SliceTellsWidths(TableColumns(t.colgroups), p.column, CellAt(t.rows, p).colSpan,
                     SavedSlice(t, p.column, CellAt(t.rows, p).colSpan));
  }

  lemma {:induction false} SliceTellsWidths(columns: seq<Attrs>, column: nat, span: nat, slice: seq<nat>)
    requires |slice| == span && forall o :: 0 <= o < span ==> slice[o] == SafeNumber(columns, column + o)
    ensures TellsWidths(NullIfZero(slice), columns, column, span)
  {
    hide IsSafeWidth, Value, NullIfZero;
    NullExactlyWhenZero(slice);
    SafeOffsets(columns, column, span, slice);
  }

  lemma {:induction false} SliceIsSafe(t: Table, column: nat, span: nat)
    ensures forall o :: 0 <= o < span ==>
      SavedSlice(t, column, span)[o] == SafeNumber(TableColumns(t.colgroups), column + o)
  {
    hide TableColumns, SafeNumber, SavedNumber;
    forall o | 0 <= o < span
      ensures SavedSlice(t, column, span)[o] == SafeNumber(TableColumns(t.colgroups), column + o)
    {
      SavedIsSafe(t, column + o);
    }
  }

  /** The number of a safe width, zero where there is none. */
  function SafeNumber(columns: seq<Attrs>, c: nat): (number: nat)
    ensures number > 0 <==> c < |columns| && IsSafeWidth(columns[c].width)
  {
    if c < |columns| && IsSafeWidth(columns[c].width) then
      ShowValue(columns[c].width.value);
      Value(columns[c].width.value)
    else 0
  }

  lemma {:induction false} SavedIsSafe(t: Table, c: nat)
    ensures SavedNumber(t, c) == SafeNumber(TableColumns(t.colgroups), c)
  {
    if c < |TableColumns(t.colgroups)| {
      FilterKeepsCanonical(TableColumns(t.colgroups)[c].width, "COL");
    }
  }

  lemma {:induction false} SafeOffsets(columns: seq<Attrs>, column: nat, span: nat, slice: seq<nat>)
    requires |slice| == span && forall o :: 0 <= o < span ==> slice[o] == SafeNumber(columns, column + o)
    ensures (forall o :: 0 <= o < span ==> slice[o] == 0) <==>
      forall c :: column <= c < column + span && c < |columns| ==> !IsSafeWidth(columns[c].width)
  {
    if forall o :: 0 <= o < span ==> slice[o] == 0 {
      forall c | column <= c < column + span && c < |columns| ensures !IsSafeWidth(columns[c].width) {
        assert slice[c - column] == SafeNumber(columns, column + (c - column));
      }
    }
  }

  lemma {:induction false} SomePositive(slice: seq<nat>, o: nat)
    requires o < |slice| && slice[o] > 0
    ensures NullIfZero(slice) == Some(slice)
  {
  }

  /** No two cells measured different widths for column `c`. */
  ghost predicate CellsAgree(rows: seq<Row>, cells: seq<Placed>, c: nat)
    requires AllInTable(rows, cells)
  {
    forall i, j {:trigger MeasuredBy(rows, cells[i], c), MeasuredBy(rows, cells[j], c)} ::
      0 <= i < |cells| && 0 <= j < |cells|
      && MeasuredBy(rows, cells[i], c) > 0 && MeasuredBy(rows, cells[j], c) > 0
      ==> MeasuredBy(rows, cells[i], c) == MeasuredBy(rows, cells[j], c)
  }

  lemma {:induction false} AgreedIsMeasured(rows: seq<Row>, cells: seq<Placed>, c: nat, i: nat)
    requires AllInTable(rows, cells) && CellsAgree(rows, cells, c)
    requires i < |cells| && MeasuredBy(rows, cells[i], c) > 0
    ensures FirstMeasured(rows, cells, |cells|, c) == MeasuredBy(rows, cells[i], c)
  {
    FirstMeasuredIsFirst(rows, cells, |cells|, c);
    var j :| 0 <= j < |cells| && MeasuredBy(rows, cells[j], c) == FirstMeasured(rows, cells, |cells|, c);
  }

  lemma {:induction false} OwnWidthIsMeasured(rows: seq<Row>, p: Placed, own: seq<nat>, o: nat)
    requires InTable(rows, p) && ParseCellWidths(CellAt(rows, p)) == Some(own) && o < |own|
    ensures MeasuredBy(rows, p, p.column + o) == own[o]
  {
  }

  lemma {:induction false} SomethingMeasured(t: Table, p: Placed, c: nat)
    requires p in CellColumns(t.rows) && InTable(t.rows, p) && MeasuredBy(t.rows, p, c) > 0
    ensures Measured(t, c) > 0
  {
    CellsInTable(t.rows);
    FirstMeasuredIsFirst(t.rows, CellColumns(t.rows), |CellColumns(t.rows)|, c);
  }

  lemma {:induction false} OwnIsPositive(t: Table, p: Placed, own: seq<nat>, o: nat)
    requires p in CellColumns(t.rows) && InTable(t.rows, p)
    requires ParseCellWidths(CellAt(t.rows, p)) == Some(own) && o < |own| && own[o] > 0
    ensures Measured(t, p.column + o) > 0
  {
    hide ParseCellWidths, CellColumns, Measured;
    OwnWidthIsMeasured(t.rows, p, own, o);
    SomethingMeasured(t, p, p.column + o);
  }

  /**
   The widths of the columns of a cell with a positive entry are not all zero, and the entry is among
   them exactly when it is the first width measured for its column.
   */
  lemma {:induction false} OwnWidthInSlice(t: Table, p: Placed, own: seq<nat>, o: nat)
    requires p in CellColumns(t.rows) && InTable(t.rows, p)
    requires ParseCellWidths(CellAt(t.rows, p)) == Some(own) && o < |own| && own[o] > 0
    ensures var back := WidthSlice(t, p.column, |own|);
            && NullIfZero(back) == Some(back)
            && (back[o] == own[o] <==> Measured(t, p.column + o) == own[o])
  {
    hide CellColumns, InTable, CellAt, Measured, ParseCellWidths, SavedNumber, NullIfZero;
    OwnIsPositive(t, p, own, o);
    SomePositive(WidthSlice(t, p.column, |own|), o);
  }

  lemma {:induction false} AgreeingWidthIsFirst(rows: seq<Row>, cells: seq<Placed>, i: nat, own: seq<nat>, o: nat)
    requires AllInTable(rows, cells) && i < |cells|
    requires ParseCellWidths(CellAt(rows, cells[i])) == Some(own) && o < |own| && own[o] > 0
    requires CellsAgree(rows, cells, cells[i].column + o)
    ensures FirstMeasured(rows, cells, |cells|, cells[i].column + o) == own[o]
  {
    OwnWidthIsMeasured(rows, cells[i], own, o);
    AgreedIsMeasured(rows, cells, cells[i].column + o, i);
  }

  lemma {:induction false} MeasuredIs(t: Table, c: nat)
    ensures AllInTable(t.rows, CellColumns(t.rows))
    ensures Measured(t, c) == FirstMeasured(t.rows, CellColumns(t.rows), |CellColumns(t.rows)|, c)
  {
    CellsInTable(t.rows);
  }

  lemma {:induction false} ParsedSpan(cell: Cell, own: seq<nat>)
    requires ParseCellWidths(cell) == Some(own)
    ensures |own| == cell.colSpan
  {
  }

  /** Where cells agree, a positive entry of a cell's own `colwidth` comes back unchanged. */
  lemma {:induction false} AgreeingWidthsComeBack(t: Table, i: nat, own: seq<nat>, o: nat)
    requires AllInTable(t.rows, CellColumns(t.rows)) && i < |CellColumns(t.rows)|
    requires ParseCellWidths(CellAt(t.rows, CellColumns(t.rows)[i])) == Some(own) && o < |own| && own[o] > 0
    requires CellsAgree(t.rows, CellColumns(t.rows), CellColumns(t.rows)[i].column + o)
    ensures var p := CellColumns(t.rows)[i];
            var back := WidthSlice(t, p.column, |own|);
            ReadCellWidths(Normalized(t), p.row, p.index) == Some(back) && back[o] == own[o]
  {
    hide Measured, MeasuredBy, ParseCellWidths, ReadCellWidths, NullIfZero, CellsAgree, ColumnWidth, Normalized;
    var p := CellColumns(t.rows)[i];
    AgreeingWidthIsFirst(t.rows, CellColumns(t.rows), i, own, o);
    MeasuredIs(t, p.column + o);
    OwnWidthInSlice(t, p, own, o);
    ParsedSpan(CellAt(t.rows, p), own);
    ReadAfterNormalize(t, i);
  }

  // ---------- How many cols there are ----------

  /** Some cell measured a width for the column, or its col has a safe one. */
  ghost predicate HasWidth(t: Table, c: nat) {
    CellsInTable(t.rows);
    || (exists i :: 0 <= i < |CellColumns(t.rows)| && MeasuredBy(t.rows, CellColumns(t.rows)[i], c) > 0)
    || (c < |TableColumns(t.colgroups)| && IsSafeWidth(TableColumns(t.colgroups)[c].width))
  }

  ghost predicate HasWidths(t: Table) {
    exists c: nat :: HasWidth(t, c)
  }

  lemma {:induction false} WidthTextExactly(t: Table, c: nat)
    ensures WidthText(t, c).Some? <==> HasWidth(t, c)
  {
    CellsInTable(t.rows);
    FirstMeasuredIsFirst(t.rows, CellColumns(t.rows), |CellColumns(t.rows)|, c);
    if c < |TableColumns(t.colgroups)| {
      FilterKeepsCanonical(TableColumns(t.colgroups)[c].width, "COL");
    }
  }

  lemma {:induction false} AllNoneExactly(t: Table)
    ensures AllNone(WidthTexts(t)) <==> !HasWidths(t)
  {
    hide HasWidth, WidthText;
    if !AllNone(WidthTexts(t)) {
      var c :| 0 <= c < |WidthTexts(t)| && WidthTexts(t)[c].Some?;
      WidthTextExactly(t, c);
    } else {
      forall c: nat ensures !HasWidth(t, c) {
        WidthTextExactly(t, c);
        if c >= |WidthTexts(t)| {
          NoTextPastTheEnd(t, c);
        } else {
          assert WidthTexts(t)[c].None?;
        }
      }
    }
  }

  /**
   With a width to save, there are as many cols as before or as the cells reach, whichever is more; without one,
   the colgroups stay as they are, their cols without a width.
   */
  lemma {:induction false} ColsExactly(t: Table)
    ensures AllInTable(t.rows, CellColumns(t.rows))
    ensures var was, cols := |TableColumns(t.colgroups)|, |TableColumns(Normalized(t).colgroups)|;
      HasWidths(t) ==>
      && cols >= was
      && (forall i :: 0 <= i < |CellColumns(t.rows)| ==> CellEnd(t.rows, CellColumns(t.rows)[i]) <= cols)
      && (cols == was
          || exists i :: 0 <= i < |CellColumns(t.rows)| && cols == CellEnd(t.rows, CellColumns(t.rows)[i]))
    ensures !HasWidths(t) ==> KeptBare(t.colgroups, Normalized(t).colgroups)
  {
    CellsInTable(t.rows);
    AllNoneExactly(t);
    if HasWidths(t) {
      WrittenColumns(t);
      ColumnCountIsFurthest(t.rows, CellColumns(t.rows), |CellColumns(t.rows)|);
    } else {
      forall g, i | 0 <= g < |t.colgroups| && 0 <= i < |t.colgroups[g]|
        ensures !IsSafeWidth(t.colgroups[g][i].width)
      {
        var c := ColAt(t.colgroups, g, i);
        assert !HasWidth(t, c);
      }
      StrippedIsCleaned(t);
    }
  }

  /** The same groups of as many cols, all of them without attributes. */
  ghost predicate KeptBare(was: seq<seq<Attrs>>, groups: seq<seq<Attrs>>) {
    && |groups| == |was|
    && forall g :: 0 <= g < |was| ==>
         |groups[g]| == |was[g]| && forall i :: 0 <= i < |was[g]| ==> groups[g][i] == Attrs(None, None)
  }

  /** Where col `i` of group `g` stands among all cols. */
  lemma {:induction false} ColAt(groups: seq<seq<Attrs>>, g: nat, i: nat) returns (c: nat)
    requires g < |groups| && i < |groups[g]|
    ensures c < |TableColumns(groups)| && TableColumns(groups)[c] == groups[g][i]
  {
    if g == 0 {
      c := i;
    } else {
      var rest := ColAt(groups[1..], g - 1, i);
      c := |groups[0]| + rest;
    }
  }

  /** New cols are appended to the last group; a table without groups gets one; all other groups keep their cols. */
  lemma {:induction false} NewColsGoLast(t: Table)
    requires HasWidths(t)
    ensures var was, groups := t.colgroups, Normalized(t).colgroups;
      && |groups| == (if was == [] then 1 else |was|)
      && forall g :: 0 <= g < |was| - 1 ==> |groups[g]| == |was[g]|
  {
    AllNoneExactly(t);
    var groups := if t.colgroups == [] then [[]] else t.colgroups;
    PutColsKeepsGroups(groups, WidthTexts(t), |WidthTexts(t)|);
  }

  lemma {:induction false} WriteColKeepsGroups(groups: seq<seq<Attrs>>, i: nat, width: Option<string>)
    requires i < |TableColumns(groups)|
    ensures |WriteCol(groups, i, width)| == |groups|
    ensures forall g :: 0 <= g < |groups| ==> |WriteCol(groups, i, width)[g]| == |groups[g]|
  {
    if i >= |groups[0]| {
      WriteColKeepsGroups(groups[1..], i - |groups[0]|, width);
    }
  }

  lemma {:induction false} PutColsKeepsGroups(groups: seq<seq<Attrs>>, widths: seq<Option<string>>, n: nat)
    requires groups != [] && n <= |widths|
    ensures |PutCols(groups, widths, n)| == |groups|
    ensures forall g :: 0 <= g < |groups| - 1 ==> |PutCols(groups, widths, n)[g]| == |groups[g]|
  {
    if n > 0 {
      PutColsKeepsGroups(groups, widths, n - 1);
      var before := PutCols(groups, widths, n - 1);
      if n - 1 < |TableColumns(before)| {
        WriteColKeepsGroups(before, n - 1, widths[n - 1]);
      }
    }
  }

  // ---------- Normalising twice ----------

  lemma {:induction false} WriteColSame(groups: seq<seq<Attrs>>, i: nat)
    requires i < |TableColumns(groups)|
    ensures WriteCol(groups, i, TableColumns(groups)[i].width) == groups
  {
    assert groups == [groups[0]] + groups[1..];
    if i < |groups[0]| {
      assert groups[0][i := groups[0][i]] == groups[0];
    } else {
      WriteColSame(groups[1..], i - |groups[0]|);
    }
  }

  lemma {:induction false} PutColsSame(groups: seq<seq<Attrs>>, widths: seq<Option<string>>, n: nat)
    requires groups != [] && n <= |widths| == |TableColumns(groups)|
    requires forall i :: 0 <= i < |widths| ==> TableColumns(groups)[i].width == widths[i]
    ensures PutCols(groups, widths, n) == groups
  {
    if n > 0 {
      PutColsSame(groups, widths, n - 1);
      WriteColSame(groups, n - 1);
    }
  }

  lemma {:induction false} StripTwice(t: Table)
    ensures Stripped(Stripped(t)) == Stripped(t)
  {
    forall a: Attrs, tag: string ensures StripAttrs(StripAttrs(a, tag), tag) == StripAttrs(a, tag) {
      FilterKeepsCanonical(a.width, tag);
    }
    var once, twice := Stripped(t), Stripped(Stripped(t));
    forall g | 0 <= g < |t.colgroups| ensures twice.colgroups[g] == once.colgroups[g] {
      assert StripGroup(StripGroup(t.colgroups[g])) == StripGroup(t.colgroups[g]);
    }
    forall r | 0 <= r < |t.rows| ensures twice.rows[r] == once.rows[r] {
      assert StripCells(StripCells(t.rows[r].cells)) == StripCells(t.rows[r].cells);
    }
  }

  /** A normalised table already carries the widths it would be given. */
  lemma {:induction false} NormalizedHasItsWidths(t: Table)
    ensures WithWidths(Normalized(t)) == Normalized(t)
  {
    var n := Normalized(t);
    var widths, again := WidthTexts(t), WidthTexts(n);
    forall c: nat ensures WidthText(n, c) == WidthText(t, c) {
      NormalizedSaves(t, c);
      NormalizedMeasuresNothing(t, c);
    }
    if AllNone(widths) {
      forall c | 0 <= c < |again| ensures again[c].None? {
        if c < |widths| {
          assert widths[c].None?;
        } else {
          NoTextPastTheEnd(t, c);
        }
      }
    } else {
      NormalizedColumnCount(t);
      forall c | 0 <= c < |again| ensures TableColumns(n.colgroups)[c].width == again[c] {
        NormalizedSaves(t, c);
      }
      PutColsSame(n.colgroups, again, |again|);
    }
  }

  lemma {:induction false} NormalizedColumnCount(t: Table)
    requires !AllNone(WidthTexts(t))
    ensures Normalized(t).colgroups != []
    ensures |TableColumns(Normalized(t).colgroups)| == |WidthTexts(t)| == |WidthTexts(Normalized(t))|
  {
    WrittenColumns(t);
    NormalizedKeepsCells(t);
    var cells := CellColumns(t.rows);
    SameColumnCount(t.rows, Normalized(t).rows, cells, |cells|);
  }

  lemma {:induction false} SameColumnCount(rows: seq<Row>, other: seq<Row>, cells: seq<Placed>, n: nat)
    requires AllInTable(rows, cells) && AllInTable(other, cells) && n <= |cells|
    requires forall i :: 0 <= i < |cells| ==> CellAt(other, cells[i]).colSpan == CellAt(rows, cells[i]).colSpan
    ensures ColumnCount(other, cells, n) == ColumnCount(rows, cells, n)
  {
    if n > 0 {
      SameColumnCount(rows, other, cells, n - 1);
    }
  }

  /** Normalising twice is normalising once, created cols and colgroups included. */
  lemma {:induction false} NormalizeTwice(t: Table)
    ensures Normalized(Normalized(t)) == Normalized(t)
  {
    NormalizedHasItsWidths(t);
    StripTwice(WithWidths(t));
  }
}
