/** The column grid of an HTML table, against the table algorithm of the WHATWG HTML standard, section 4.9.12.1. */
module TableGrid {
  import opened Wrappers
  import opened SeqFacts

  /** The DOM never reports a column span below one. */
  type Span = n: nat | 1 <= n witness 1

  /** The two attributes the width code touches. */
  datatype Attrs = Attrs(width: Option<string>, colwidth: Option<string>)

  datatype Cell = Cell(colSpan: Span, rowSpan: nat, attrs: Attrs)

  /** `parent` identifies the row's parent element; a row group is a run of rows with one parent. */
  datatype Row = Row(parent: nat, cells: seq<Cell>)

  /** A seated cell, named by its row and its index in that row. */
  datatype Placed = Placed(row: nat, index: nat, column: nat)

  // ---------- Row groups and row spans ----------

  function GroupEndFrom(rows: seq<Row>, r: nat, g: nat): (end: nat)
    requires r < g <= |rows|
    ensures g <= end <= |rows|
    decreases |rows| - g
  {
    if g < |rows| && rows[g].parent == rows[r].parent then GroupEndFrom(rows, r, g + 1) else g
  }

  /** That is where the group ends: the rows before it share the parent, and the row at it does not. */
  lemma {:induction false} GroupEndIsEnd(rows: seq<Row>, r: nat, g: nat)
    requires r < g <= |rows|
    ensures forall i :: g <= i < GroupEndFrom(rows, r, g) ==> rows[i].parent == rows[r].parent
    ensures GroupEndFrom(rows, r, g) < |rows| ==> rows[GroupEndFrom(rows, r, g)].parent != rows[r].parent
    decreases |rows| - g
  {
    if g < |rows| && rows[g].parent == rows[r].parent {
      GroupEndIsEnd(rows, r, g + 1);
    }
  }

  function SpanEnd(rows: seq<Row>, r: nat, cell: Cell): (end: nat)
    requires r < |rows|
    ensures r < end <= |rows|
  {
    var groupEnd := GroupEndFrom(rows, r, r + 1);
    if cell.rowSpan == 0 then groupEnd
    else if groupEnd <= r + cell.rowSpan then groupEnd else r + cell.rowSpan
  }

  /** A cell covers the rows of its own group from its row on, as far as its rowspan reaches; zero reaches the end. */
  lemma {:induction false} SpanCoversExactly(rows: seq<Row>, r: nat, cell: Cell, y: nat)
    requires r <= y < |rows|
    ensures y < SpanEnd(rows, r, cell) <==>
      && (forall i :: r <= i <= y ==> rows[i].parent == rows[r].parent)
      && (cell.rowSpan == 0 || y < r + cell.rowSpan)
  {
    GroupEndIsEnd(rows, r, r + 1);
  }

  /** What seating needs to know of a cell: where it stands in the table and how far it reaches. */
  datatype Spot = Spot(row: nat, index: nat, colSpan: Span, spanEnd: nat)

  function SpotOf(rows: seq<Row>, r: nat, k: nat): Spot
    requires r < |rows| && k < |rows[r].cells|
  {
    Spot(r, k, rows[r].cells[k].colSpan, SpanEnd(rows, r, rows[r].cells[k]))
  }

  /** The first `n` cells of row `r`. */
  function RowSpots(rows: seq<Row>, r: nat, n: nat): (spots: seq<Spot>)
    requires r < |rows| && n <= |rows[r].cells|
    ensures |spots| == n
  {
    if n == 0 then [] else RowSpots(rows, r, n - 1) + [SpotOf(rows, r, n - 1)]
  }

  function SpotsUpTo(rows: seq<Row>, r: nat): seq<Spot>
    requires r <= |rows|
  {
    if r == 0 then [] else SpotsUpTo(rows, r - 1) + RowSpots(rows, r - 1, |rows[r - 1].cells|)
  }

  function Spots(rows: seq<Row>): seq<Spot> {
    SpotsUpTo(rows, |rows|)
  }

  /** Spots come row by row, and every span covers at least its own row. */
  ghost predicate InRowOrder(spots: seq<Spot>) {
    && (forall i, j :: 0 <= i < j < |spots| ==> spots[i].row <= spots[j].row)
    && (forall i :: 0 <= i < |spots| ==> spots[i].row < spots[i].spanEnd)
  }

  lemma {:induction false} RowSpotAt(rows: seq<Row>, r: nat, n: nat)
    requires r < |rows| && n <= |rows[r].cells|
    ensures forall k :: 0 <= k < n ==> RowSpots(rows, r, n)[k] == SpotOf(rows, r, k)
  {
    if n > 0 {
      RowSpotAt(rows, r, n - 1);
    }
  }

  lemma {:induction false} SpotsInRowOrder(rows: seq<Row>, r: nat)
    requires r <= |rows|
    ensures InRowOrder(SpotsUpTo(rows, r))
    ensures forall i :: 0 <= i < |SpotsUpTo(rows, r)| ==> SpotsUpTo(rows, r)[i].row < r
  {
    if r > 0 {
      SpotsInRowOrder(rows, r - 1);
      RowSpotAt(rows, r - 1, |rows[r - 1].cells|);
    }
  }

  // ---------- Seating with one array of per-column bounds ----------

  /** `occupiedUntil` and the cursor of the current row. */
  datatype Grid = Grid(occupied: seq<nat>, column: nat) {
    ghost predicate Valid() {
      column <= |occupied|
    }
  }

  function Bound(occupied: seq<nat>, c: nat): nat {
    if c < |occupied| then occupied[c] else 0
  }

  function FirstFree(occupied: seq<nat>, row: nat, c: nat): (free: nat)
    ensures c <= free && Bound(occupied, free) <= row
    ensures c <= |occupied| ==> free <= |occupied|
    decreases |occupied| - c
  {
    if Bound(occupied, c) > row then FirstFree(occupied, row, c + 1) else c
  }

  lemma {:induction false} HeldBeforeFirstFree(occupied: seq<nat>, row: nat, c: nat, k: nat)
    requires c <= k < FirstFree(occupied, row, c)
    ensures Bound(occupied, k) > row
    decreases |occupied| - c
  {
    if c < k {
      HeldBeforeFirstFree(occupied, row, c + 1, k);
    }
  }

  /** A write to a JavaScript array at an index that is inside it or just past its end. */
  function Write(occupied: seq<nat>, c: nat, bound: nat): seq<nat>
    requires c <= |occupied|
  {
    if c < |occupied| then occupied[c := bound] else occupied + [bound]
  }

  /** The array after writing `bound` to `n` columns starting at `c`. */
  function Claim(occupied: seq<nat>, c: nat, n: nat, bound: nat): (claimed: seq<nat>)
    requires c <= |occupied|
    ensures c + n <= |claimed|
  {
    if n == 0 then occupied else Write(Claim(occupied, c, n - 1, bound), c + n - 1, bound)
  }

  lemma {:induction false} ClaimBound(occupied: seq<nat>, c: nat, n: nat, bound: nat, k: nat)
    requires c <= |occupied|
    ensures Bound(Claim(occupied, c, n, bound), k) == if c <= k < c + n then bound else Bound(occupied, k)
  {
    if n > 0 {
      ClaimBound(occupied, c, n - 1, bound, k);
    }
  }

  function Seat(g: Grid, s: Spot): (column: nat)
    requires g.Valid()
    ensures column <= |g.occupied|
  {
    FirstFree(g.occupied, s.row, if s.index == 0 then 0 else g.column)
  }

  function Sit(g: Grid, s: Spot): (g': Grid)
    requires g.Valid()
    ensures g'.Valid()
  {
    Grid(Claim(g.occupied, Seat(g, s), s.colSpan, s.spanEnd), Seat(g, s) + s.colSpan)
  }

  /** The grid after the first `n` spots, starting from `g`. */
  function RunFrom(g: Grid, spots: seq<Spot>, n: nat): (g': Grid)
    requires g.Valid() && n <= |spots|
    ensures g'.Valid()
  {
    if n == 0 then g else Sit(RunFrom(g, spots, n - 1), spots[n - 1])
  }

  function Run(spots: seq<Spot>, n: nat): (g: Grid)
    requires n <= |spots|
    ensures g.Valid()
  {
    RunFrom(Grid([], 0), spots, n)
  }

  function ColumnsFrom(g: Grid, spots: seq<Spot>): (columns: seq<nat>)
    requires g.Valid()
    ensures |columns| == |spots|
  {
    seq(|spots|, i requires 0 <= i < |spots| => Seat(RunFrom(g, spots, i), spots[i]))
  }

  /** The column of every spot, in spot order. */
  function Columns(spots: seq<Spot>): (columns: seq<nat>)
    ensures |columns| == |spots|
  {
    ColumnsFrom(Grid([], 0), spots)
  }

  function PlaceAt(spots: seq<Spot>, i: nat): Placed
    requires i < |spots|
  {
    Placed(spots[i].row, spots[i].index, Seat(Run(spots, i), spots[i]))
  }

  function PlaceUpTo(spots: seq<Spot>, n: nat): (placed: seq<Placed>)
    requires n <= |spots|
    ensures |placed| == n
  {
    if n == 0 then [] else PlaceUpTo(spots, n - 1) + [PlaceAt(spots, n - 1)]
  }

  lemma {:induction false} PlacedAt(spots: seq<Spot>, n: nat, i: nat)
    requires i < n <= |spots|
    ensures PlaceUpTo(spots, n)[i] == PlaceAt(spots, i)
  {
    if i < n - 1 {
      PlacedAt(spots, n - 1, i);
    }
  }

  /** The pairs `tableCellColumns` returns. */
  function CellColumns(rows: seq<Row>): (cells: seq<Placed>)
    ensures |cells| == |Spots(rows)|
  {
    PlaceUpTo(Spots(rows), |Spots(rows)|)
  }

  /** Where the spots of row `r` start. */
  function RowStart(rows: seq<Row>, r: nat): nat
    requires r <= |rows|
  {
    |SpotsUpTo(rows, r)|
  }

  lemma {:induction false} SpotsPrefix(rows: seq<Row>, r: nat, upTo: nat)
    requires r <= upTo <= |rows|
    ensures SpotsUpTo(rows, r) <= SpotsUpTo(rows, upTo)
  {
    if r < upTo {
      SpotsPrefix(rows, r, upTo - 1);
    }
  }

  lemma {:induction false} SpotAt(rows: seq<Row>, r: nat, k: nat)
    requires r < |rows| && k < |rows[r].cells|
    ensures RowStart(rows, r) + k < RowStart(rows, r + 1) <= |Spots(rows)|
    ensures Spots(rows)[RowStart(rows, r) + k] == SpotOf(rows, r, k)
  {
    SpotsPrefix(rows, r + 1, |rows|);
    RowSpotAt(rows, r, |rows[r].cells|);
    assert RowSpots(rows, r, |rows[r].cells|)[k] == SpotsUpTo(rows, r + 1)[RowStart(rows, r) + k];
  }

  /** The loops have seated the first `n` cells of the table. */
  ghost predicate Seated(rows: seq<Row>, n: nat, occupied: seq<nat>, cells: seq<Placed>) {
    n <= |Spots(rows)| && occupied == Run(Spots(rows), n).occupied && cells == PlaceUpTo(Spots(rows), n)
  }

  /** The inner loop has seated the first `k` cells of row `r`, and its cursor stands at `column`. */
  ghost predicate SeatedInRow(rows: seq<Row>, r: nat, k: nat, occupied: seq<nat>, cells: seq<Placed>, column: nat) {
    && r < |rows| && k <= |rows[r].cells| && column <= |occupied|
    && Seated(rows, RowStart(rows, r) + k, occupied, cells)
    && column == if k == 0 then 0 else Run(Spots(rows), RowStart(rows, r) + k).column
  }

  /** One turn of the inner loop, in terms of the row and the cell. */
  lemma {:induction false} CellStep(rows: seq<Row>, r: nat, k: nat, occupied: seq<nat>, cells: seq<Placed>, cursor: nat)
    requires SeatedInRow(rows, r, k, occupied, cells, cursor) && k < |rows[r].cells|
    ensures var column := FirstFree(occupied, r, cursor);
            var cell := rows[r].cells[k];
            cursor <= |occupied| &&
            SeatedInRow(rows, r, k + 1, Claim(occupied, column, cell.colSpan, SpanEnd(rows, r, cell)),
                        cells + [Placed(r, k, column)], column + cell.colSpan)
  {
    SpotAt(rows, r, k);
  }

  lemma {:induction false} RowSeated(rows: seq<Row>, r: nat, occupied: seq<nat>, cells: seq<Placed>)
    requires r < |rows|
    ensures Seated(rows, RowStart(rows, r), occupied, cells) ==> SeatedInRow(rows, r, 0, occupied, cells, 0)
    ensures forall column ::
      SeatedInRow(rows, r, |rows[r].cells|, occupied, cells, column) ==>
      Seated(rows, RowStart(rows, r + 1), occupied, cells)
  {
  }

  /** The scan past columns still held from above. */
  method SkipHeld(occupiedUntil: seq<nat>, rowIndex: nat, start: nat) returns (column: nat)
    requires start <= |occupiedUntil|
    ensures column == FirstFree(occupiedUntil, rowIndex, start)
  {
    column := start;
    while column < |occupiedUntil| && occupiedUntil[column] > rowIndex
      invariant column <= |occupiedUntil|
      invariant FirstFree(occupiedUntil, rowIndex, column) == FirstFree(occupiedUntil, rowIndex, start)
    {
      column := column + 1;
    }
  }

  /** The row below the last one a cell of row `rowIndex` covers. */
  method FindSpanEnd(rows: seq<Row>, rowIndex: nat, cell: Cell) returns (spanEnd: nat)
    requires rowIndex < |rows|
    ensures spanEnd == SpanEnd(rows, rowIndex, cell)
  {
    var groupEnd := rowIndex + 1;
    while groupEnd < |rows| && rows[groupEnd].parent == rows[rowIndex].parent
      invariant rowIndex < groupEnd <= |rows|
      invariant GroupEndFrom(rows, rowIndex, groupEnd) == GroupEndFrom(rows, rowIndex, rowIndex + 1)
    {
      groupEnd := groupEnd + 1;
    }
    spanEnd := if cell.rowSpan == 0 then groupEnd
      else if groupEnd <= rowIndex + cell.rowSpan then groupEnd else rowIndex + cell.rowSpan;
  }

  /** One write per covered column; the array grows when a write is past its end. */
  method HoldColumns(held: seq<nat>, column: nat, colSpan: nat, spanEnd: nat) returns (occupiedUntil: seq<nat>)
    requires column <= |held|
    ensures occupiedUntil == Claim(held, column, colSpan, spanEnd)
  {
    occupiedUntil := held;
    for offset := 0 to colSpan
      invariant occupiedUntil == Claim(held, column, offset, spanEnd)
    {
      occupiedUntil := Write(occupiedUntil, column + offset, spanEnd);
    }
  }

  /** Seats one cell: its column, and the bounds with its own claim written in. */
  method SeatCell(rows: seq<Row>, rowIndex: nat, cell: Cell, held: seq<nat>, cursor: nat)
    returns (occupiedUntil: seq<nat>, column: nat)
    requires rowIndex < |rows| && cursor <= |held|
    ensures column == FirstFree(held, rowIndex, cursor)
    ensures occupiedUntil == Claim(held, column, cell.colSpan, SpanEnd(rows, rowIndex, cell))
  {
    column := SkipHeld(held, rowIndex, cursor);
    var spanEnd := FindSpanEnd(rows, rowIndex, cell);
    occupiedUntil := HoldColumns(held, column, cell.colSpan, spanEnd);
  }

  /** The inner loop of `tableCellColumns`: seats the cells of one row. */
  method SeatRow(rows: seq<Row>, rowIndex: nat, held: seq<nat>, seated: seq<Placed>)
    returns (occupiedUntil: seq<nat>, cells: seq<Placed>)
    requires rowIndex < |rows| && Seated(rows, RowStart(rows, rowIndex), held, seated)
    ensures Seated(rows, RowStart(rows, rowIndex + 1), occupiedUntil, cells)
  {
    RowSeated(rows, rowIndex, held, seated);
    hide SeatedInRow, Seated, FirstFree, Claim, SpanEnd;
    occupiedUntil, cells := held, seated;
    var column: nat := 0;
    for k := 0 to |rows[rowIndex].cells|
      invariant SeatedInRow(rows, rowIndex, k, occupiedUntil, cells, column)
    {
      var cell := rows[rowIndex].cells[k];
      CellStep(rows, rowIndex, k, occupiedUntil, cells, column);
      occupiedUntil, column := SeatCell(rows, rowIndex, cell, occupiedUntil, column);
      cells := cells + [Placed(rowIndex, k, column)];
      column := column + cell.colSpan;
    }
    RowSeated(rows, rowIndex, occupiedUntil, cells);
  }

  /** `tableCellColumns`: one growing array, carried from row to row. */
  method TableCellColumns(rows: seq<Row>) returns (cells: seq<Placed>)
    ensures cells == CellColumns(rows)
  {
    var occupiedUntil: seq<nat> := [];
    cells := [];
    for rowIndex := 0 to |rows|
      invariant Seated(rows, RowStart(rows, rowIndex), occupiedUntil, cells)
    {
      occupiedUntil, cells := SeatRow(rows, rowIndex, occupiedUntil, cells);
    }
  }

  // ---------- The reference: the full set of taken slots ----------

  type Slot = (nat, nat)

  function Rect(s: Spot, column: nat): set<Slot> {
    set y: nat, x: nat | s.row <= y < s.spanEnd && column <= x < column + s.colSpan :: (y, x)
  }

  /** The table algorithm's cursor and the slots some cell already covers. */
  datatype SlotGrid = SlotGrid(taken: set<Slot>, column: nat)

  ghost function FirstOpen(taken: set<Slot>, row: nat, c: nat): (open: nat)
    ensures c <= open && (row, open) !in taken
    ensures forall k: nat :: c <= k < open ==> (row, k) in taken
    decreases set slot | slot in taken && slot.1 >= c
  {
    if (row, c) in taken then
      var right, further := (set slot | slot in taken && slot.1 >= c), (set slot | slot in taken && slot.1 >= c + 1);
      assert further <= right && (row, c) in right && (row, c) !in further;
      FirstOpen(taken, row, c + 1)
    else c
  }

  ghost function SlotSeat(g: SlotGrid, s: Spot): nat {
    FirstOpen(g.taken, s.row, if s.index == 0 then 0 else g.column)
  }

  ghost function SlotSit(g: SlotGrid, s: Spot): SlotGrid {
    SlotGrid(g.taken + Rect(s, SlotSeat(g, s)), SlotSeat(g, s) + s.colSpan)
  }

  ghost function SlotRun(spots: seq<Spot>, n: nat): SlotGrid
    requires n <= |spots|
  {
    if n == 0 then SlotGrid({}, 0) else SlotSit(SlotRun(spots, n - 1), spots[n - 1])
  }

  /** The column the table algorithm gives spot `i`. */
  ghost function SlotColumn(spots: seq<Spot>, i: nat): nat
    requires i < |spots|
  {
    SlotSeat(SlotRun(spots, i), spots[i])
  }

  /** From `row` downwards the array says of every slot whether it is taken. */
  ghost predicate Represents(occupied: seq<nat>, taken: set<Slot>, row: nat) {
    forall y: nat, x: nat :: row <= y ==> ((y, x) in taken <==> y < Bound(occupied, x))
  }

  /** Seating `s` shortens the bound of some column. */
  predicate Lowers(g: Grid, s: Spot)
    requires g.Valid()
  {
    exists x :: Seat(g, s) <= x < Seat(g, s) + s.colSpan && Bound(g.occupied, x) > s.spanEnd
  }

  /** Seating `s` claims a column that is still held from above. */
  predicate Overlaps(g: Grid, s: Spot)
    requires g.Valid()
  {
    exists x :: Seat(g, s) <= x < Seat(g, s) + s.colSpan && Bound(g.occupied, x) > s.row
  }

  ghost predicate NeverLowers(spots: seq<Spot>) {
    forall i {:trigger Run(spots, i)} :: 0 <= i < |spots| ==> !Lowers(Run(spots, i), spots[i])
  }

  ghost predicate ClaimsFree(spots: seq<Spot>) {
    forall i {:trigger Run(spots, i)} :: 0 <= i < |spots| ==> !Overlaps(Run(spots, i), spots[i])
  }

  lemma {:induction false} SameSeat(g: Grid, h: SlotGrid, s: Spot)
    requires g.Valid() && Represents(g.occupied, h.taken, s.row)
    requires s.index == 0 || g.column == h.column
    ensures Seat(g, s) == SlotSeat(h, s)
  {
    var a, b := Seat(g, s), SlotSeat(h, s);
    assert (s.row, a) !in h.taken;
    assert Bound(g.occupied, b) <= s.row;
    if b < a {
      HeldBeforeFirstFree(g.occupied, s.row, if s.index == 0 then 0 else g.column, b);
    }
  }

  /** One cell keeps the array exact if and only if it lowers no bound. */
  lemma {:induction false} SeatingStaysExact(g: Grid, h: SlotGrid, s: Spot)
    requires g.Valid() && Represents(g.occupied, h.taken, s.row)
    requires s.index == 0 || g.column == h.column
    requires s.row < s.spanEnd
    ensures Represents(Sit(g, s).occupied, SlotSit(h, s).taken, s.row) <==> !Lowers(g, s)
  {
    SameSeat(g, h, s);
    var column := Seat(g, s);
    if Lowers(g, s) {
      var x :| column <= x < column + s.colSpan && Bound(g.occupied, x) > s.spanEnd;
      assert (s.spanEnd, x) in SlotSit(h, s).taken;
      ClaimBound(g.occupied, column, s.colSpan, s.spanEnd, x);
    } else {
      forall y: nat, x: nat | s.row <= y
        ensures (y, x) in SlotSit(h, s).taken <==> y < Bound(Sit(g, s).occupied, x)
      {
        ClaimBound(g.occupied, column, s.colSpan, s.spanEnd, x);
        assert (y, x) in Rect(s, column) <==> y < s.spanEnd && column <= x < column + s.colSpan;
        assert (y, x) in h.taken <==> y < Bound(g.occupied, x);
      }
    }
  }

  lemma {:induction false} RunStaysExact(spots: seq<Spot>, n: nat, row: nat)
    requires InRowOrder(spots) && n <= |spots|
    requires forall i {:trigger Run(spots, i)} :: 0 <= i < n ==> !Lowers(Run(spots, i), spots[i])
    requires forall i :: 0 <= i < n ==> spots[i].row <= row
    ensures Represents(Run(spots, n).occupied, SlotRun(spots, n).taken, row)
    ensures Run(spots, n).column == SlotRun(spots, n).column
  {
    if n > 0 {
      var s := spots[n - 1];
      RunStaysExact(spots, n - 1, s.row);
      SameSeat(Run(spots, n - 1), SlotRun(spots, n - 1), s);
      SeatingStaysExact(Run(spots, n - 1), SlotRun(spots, n - 1), s);
    }
  }

  lemma {:induction false} SeatMatches(spots: seq<Spot>, i: nat)
    requires InRowOrder(spots) && i < |spots|
    requires forall j {:trigger Run(spots, j)} :: 0 <= j < i ==> !Lowers(Run(spots, j), spots[j])
    ensures Seat(Run(spots, i), spots[i]) == SlotColumn(spots, i)
    ensures Represents(Run(spots, i).occupied, SlotRun(spots, i).taken, spots[i].row)
  {
    RunStaysExact(spots, i, spots[i].row);
    SameSeat(Run(spots, i), SlotRun(spots, i), spots[i]);
  }

  /** Unless some cell shortens a held column, the array and the slot set seat every cell alike. */
  lemma {:induction false} ColumnsMatchReference(rows: seq<Row>)
    requires NeverLowers(Spots(rows))
    ensures forall i :: 0 <= i < |Spots(rows)| ==> CellColumns(rows)[i].column == SlotColumn(Spots(rows), i)
  {
    SpotsInRowOrder(rows, |rows|);
    forall i | 0 <= i < |Spots(rows)|
      ensures CellColumns(rows)[i].column == SlotColumn(Spots(rows), i)
    {
      PlacedAt(Spots(rows), |Spots(rows)|, i);
      SeatMatches(Spots(rows), i);
    }
  }

  lemma {:induction false} ClaimsFreeNeverLowers(spots: seq<Spot>)
    requires InRowOrder(spots) && ClaimsFree(spots)
    ensures NeverLowers(spots)
  {
    forall i | 0 <= i < |spots| ensures !Lowers(Run(spots, i), spots[i]) {
      assert !Overlaps(Run(spots, i), spots[i]);
    }
  }

  // ---------- Disjoint rectangles ----------

  ghost predicate Disjoint(spots: seq<Spot>) {
    forall i, j :: 0 <= i < j < |spots| ==> Rect(spots[i], Columns(spots)[i]) !! Rect(spots[j], Columns(spots)[j])
  }

  /** Every taken slot lies in an earlier rectangle. */
  lemma {:induction false} TakenByEarlier(spots: seq<Spot>, n: nat, slot: Slot) returns (i: nat)
    requires InRowOrder(spots) && n <= |spots| && slot in SlotRun(spots, n).taken
    ensures i < n && slot in Rect(spots[i], SlotColumn(spots, i))
  {
    if slot in SlotRun(spots, n - 1).taken {
      i := TakenByEarlier(spots, n - 1, slot);
    } else {
      i := n - 1;
    }
  }

  lemma {:induction false} EarlierIsTaken(spots: seq<Spot>, n: nat, i: nat)
    requires InRowOrder(spots) && i < n <= |spots|
    ensures Rect(spots[i], SlotColumn(spots, i)) <= SlotRun(spots, n).taken
  {
    if i < n - 1 {
      EarlierIsTaken(spots, n - 1, i);
    }
  }

  /** The rectangles are pairwise disjoint if and only if no cell claims a column held from above. */
  lemma {:induction false} DisjointExactly(rows: seq<Row>)
    ensures Disjoint(Spots(rows)) <==> ClaimsFree(Spots(rows))
  {
    var spots := Spots(rows);
    SpotsInRowOrder(rows, |rows|);
    if ClaimsFree(spots) {
      FreeIsDisjoint(spots);
    } else {
      var i := FirstOverlap(spots, |spots|);
      var j, slot := SharedSlot(spots, i);
      assert slot in Rect(spots[j], Columns(spots)[j]) * Rect(spots[i], Columns(spots)[i]);
    }
  }

  lemma {:induction false} FreeIsDisjoint(spots: seq<Spot>)
    requires InRowOrder(spots) && ClaimsFree(spots)
    ensures Disjoint(spots)
  {
    ClaimsFreeNeverLowers(spots);
    forall i, j | 0 <= i < j < |spots|
      ensures Rect(spots[i], Columns(spots)[i]) !! Rect(spots[j], Columns(spots)[j])
    {
      SeatMatches(spots, i);
      SeatMatches(spots, j);
      EarlierIsTaken(spots, j, i);
      assert !Overlaps(Run(spots, j), spots[j]);
      forall slot | slot in Rect(spots[j], Columns(spots)[j]) ensures slot !in SlotRun(spots, j).taken {
        assert (slot.0, slot.1) in SlotRun(spots, j).taken <==> slot.0 < Bound(Run(spots, j).occupied, slot.1);
      }
    }
  }

  lemma {:induction false} FirstOverlap(spots: seq<Spot>, n: nat) returns (i: nat)
    requires n <= |spots| && exists j {:trigger Run(spots, j)} :: 0 <= j < n && Overlaps(Run(spots, j), spots[j])
    ensures i < n && Overlaps(Run(spots, i), spots[i])
    ensures forall j {:trigger Run(spots, j)} :: 0 <= j < i ==> !Overlaps(Run(spots, j), spots[j])
  {
    if exists j {:trigger Run(spots, j)} :: 0 <= j < n - 1 && Overlaps(Run(spots, j), spots[j]) {
      i := FirstOverlap(spots, n - 1);
    } else {
      i := n - 1;
    }
  }

  /** The first cell to claim a held column shares a slot with an earlier one. */
  lemma {:induction false} SharedSlot(spots: seq<Spot>, j: nat) returns (i: nat, slot: Slot)
    requires InRowOrder(spots) && j < |spots| && Overlaps(Run(spots, j), spots[j])
    requires forall i {:trigger Run(spots, i)} :: 0 <= i < j ==> !Overlaps(Run(spots, i), spots[i])
    ensures i < j && Columns(spots)[i] == SlotColumn(spots, i) && Columns(spots)[j] == SlotColumn(spots, j)
    ensures slot in Rect(spots[i], SlotColumn(spots, i)) && slot in Rect(spots[j], SlotColumn(spots, j))
  {
    forall i | 0 <= i < j ensures !Lowers(Run(spots, i), spots[i]) {
      assert !Overlaps(Run(spots, i), spots[i]);
    }
    SeatMatches(spots, j);
    var column := Seat(Run(spots, j), spots[j]);
    var x :| column <= x < column + spots[j].colSpan && Bound(Run(spots, j).occupied, x) > spots[j].row;
    slot := (spots[j].row, x);
    assert slot in SlotRun(spots, j).taken;
    i := TakenByEarlier(spots, j, slot);
    SeatMatches(spots, i);
  }

  /** With single-column cells every claim is free, so the columns and the disjointness are unconditional. */
  lemma {:induction false} SingleColumnsAreFree(rows: seq<Row>)
    requires forall r, k :: 0 <= r < |rows| && 0 <= k < |rows[r].cells| ==> rows[r].cells[k].colSpan == 1
    ensures ClaimsFree(Spots(rows)) && NeverLowers(Spots(rows)) && Disjoint(Spots(rows))
  {
    SpotsInRowOrder(rows, |rows|);
    SpotSpans(rows, |rows|);
    var spots := Spots(rows);
    forall i | 0 <= i < |spots| ensures !Overlaps(Run(spots, i), spots[i]) {
      assert spots[i].colSpan == 1;
    }
    ClaimsFreeNeverLowers(spots);
    FreeIsDisjoint(spots);
  }

  lemma {:induction false} SpotSpans(rows: seq<Row>, r: nat)
    requires r <= |rows|
    requires forall r, k :: 0 <= r < |rows| && 0 <= k < |rows[r].cells| ==> rows[r].cells[k].colSpan == 1
    ensures forall i :: 0 <= i < |SpotsUpTo(rows, r)| ==> SpotsUpTo(rows, r)[i].colSpan == 1
  {
    if r > 0 {
      SpotSpans(rows, r - 1);
      RowSpotAt(rows, r - 1, |rows[r - 1].cells|);
    }
  }

  // ---------- When the array stays exact, and what happens when it does not ----------

  /** After seating spot `i` the array agrees with the slot set from that row down. */
  ghost predicate ExactAfter(spots: seq<Spot>, i: nat)
    requires i < |spots|
  {
    Represents(Run(spots, i + 1).occupied, SlotRun(spots, i + 1).taken, spots[i].row)
  }

  ghost predicate ExactThroughout(spots: seq<Spot>) {
    forall i :: 0 <= i < |spots| ==> ExactAfter(spots, i)
  }

  /** The array is exact after every cell if and only if no cell ever shortens a held column. */
  lemma {:induction false} ExactExactly(rows: seq<Row>)
    ensures ExactThroughout(Spots(rows)) <==> NeverLowers(Spots(rows))
  {
    var spots := Spots(rows);
    SpotsInRowOrder(rows, |rows|);
    if NeverLowers(spots) {
      forall i | 0 <= i < |spots| ensures ExactAfter(spots, i) {
        RunStaysExact(spots, i + 1, spots[i].row);
      }
    }
    if ExactThroughout(spots) {
      forall i {:trigger Run(spots, i)} | 0 <= i < |spots| ensures !Lowers(Run(spots, i), spots[i]) {
        ExactNeverLowers(spots, i);
      }
    }
  }

  lemma {:induction false} ExactBefore(spots: seq<Spot>, n: nat)
    requires InRowOrder(spots) && ExactThroughout(spots) && n < |spots|
    ensures Represents(Run(spots, n).occupied, SlotRun(spots, n).taken, spots[n].row)
  {
    if n > 0 {
      assert ExactAfter(spots, n - 1);
    }
  }

  lemma {:induction false} ExactCursor(spots: seq<Spot>, n: nat)
    requires InRowOrder(spots) && ExactThroughout(spots) && n <= |spots|
    ensures Run(spots, n).column == SlotRun(spots, n).column
  {
    if n > 0 {
      ExactCursor(spots, n - 1);
      ExactBefore(spots, n - 1);
      SameSeat(Run(spots, n - 1), SlotRun(spots, n - 1), spots[n - 1]);
    }
  }

  lemma {:induction false} ExactNeverLowers(spots: seq<Spot>, i: nat)
    requires InRowOrder(spots) && ExactThroughout(spots) && i < |spots|
    ensures !Lowers(Run(spots, i), spots[i])
  {
    ExactBefore(spots, i);
    ExactCursor(spots, i);
    assert ExactAfter(spots, i);
    SeatingStaysExact(Run(spots, i), SlotRun(spots, i), spots[i]);
  }

  // ---------- The columns, from the result alone ----------

  /** Where the last of the first `n` seated cells that covers column `x` ends; zero when none does. */
  function LastHold(rows: seq<Row>, n: nat, x: nat): nat
    requires n <= |Spots(rows)|
  {
    if n == 0 then 0 else
      var p := CellColumns(rows)[n - 1];
      if p.row < |rows| && p.index < |rows[p.row].cells|
         && p.column <= x < p.column + rows[p.row].cells[p.index].colSpan
      then SpanEnd(rows, p.row, rows[p.row].cells[p.index]) else LastHold(rows, n - 1, x)
  }

  lemma {:induction false} SitBound(g: Grid, s: Spot, x: nat)
    requires g.Valid()
    ensures Bound(Sit(g, s).occupied, x)
         == if Seat(g, s) <= x < Seat(g, s) + s.colSpan then s.spanEnd else Bound(g.occupied, x)
  {
    ClaimBound(g.occupied, Seat(g, s), s.colSpan, s.spanEnd, x);
  }

  lemma {:induction false} SpotIsItsCell(rows: seq<Row>, r: nat, i: nat)
    requires r <= |rows| && i < |SpotsUpTo(rows, r)|
    ensures var s := SpotsUpTo(rows, r)[i];
            s.row < r && s.index < |rows[s.row].cells| && s == SpotOf(rows, s.row, s.index)
  {
    if i < |SpotsUpTo(rows, r - 1)| {
      SpotIsItsCell(rows, r - 1, i);
    } else {
      RowSpotAt(rows, r - 1, |rows[r - 1].cells|);
    }
  }

  lemma {:induction false} BoundIsLastHold(rows: seq<Row>, n: nat, x: nat)
    requires n <= |Spots(rows)|
    ensures Bound(Run(Spots(rows), n).occupied, x) == LastHold(rows, n, x)
  {
    hide Sit, Seat, SpanEnd;
    if n > 0 {
      var spots := Spots(rows);
      BoundIsLastHold(rows, n - 1, x);
      PlacedAt(spots, |spots|, n - 1);
      SpotIsItsCell(rows, |rows|, n - 1);
      SitBound(Run(spots, n - 1), spots[n - 1], x);
    }
  }

  /** Where the search for the column of cell `k` of row `r` starts: after the cell before it. */
  function CellStart(rows: seq<Row>, r: nat, k: nat): nat
    requires r < |rows| && k < |rows[r].cells| && RowStart(rows, r) + k < |Spots(rows)|
  {
    if k == 0 then 0 else CellColumns(rows)[RowStart(rows, r) + k - 1].column + rows[r].cells[k - 1].colSpan
  }

  lemma {:induction false} PlacedCell(rows: seq<Row>, r: nat, k: nat)
    requires r < |rows| && k < |rows[r].cells|
    ensures RowStart(rows, r) + k < |Spots(rows)|
    ensures var n := RowStart(rows, r) + k;
            CellColumns(rows)[n] == Placed(r, k, Seat(Run(Spots(rows), n), SpotOf(rows, r, k)))
  {
    hide Seat;
    SpotAt(rows, r, k);
    PlacedAt(Spots(rows), |Spots(rows)|, RowStart(rows, r) + k);
  }

  lemma {:induction false} StartIsCursor(rows: seq<Row>, r: nat, k: nat)
    requires r < |rows| && k < |rows[r].cells|
    ensures RowStart(rows, r) + k < |Spots(rows)|
    ensures CellStart(rows, r, k) == if k == 0 then 0 else Run(Spots(rows), RowStart(rows, r) + k).column
  {
    SpotAt(rows, r, k);
    if k > 0 {
      PlacedCell(rows, r, k - 1);
      SpotAt(rows, r, k - 1);
      hide Seat, Claim, Spots;
    }
  }

  /**
   Each cell stands in the first column, after the cell before it in its row, that no earlier cell holds from
   above; a column is held as long as the last cell seated over it says.
   */
  lemma {:induction false} EachCellTakesFirstFree(rows: seq<Row>, r: nat, k: nat)
    requires r < |rows| && k < |rows[r].cells|
    ensures RowStart(rows, r) + k < |Spots(rows)|
    ensures var n, start := RowStart(rows, r) + k, CellStart(rows, r, k);
            var p := CellColumns(rows)[n];
            && p.row == r && p.index == k && start <= p.column && LastHold(rows, n, p.column) <= r
            && forall x :: start <= x < p.column ==> LastHold(rows, n, x) > r
  {
    PlacedCell(rows, r, k);
    StartIsCursor(rows, r, k);
    hide Run, SpanEnd, LastHold, CellColumns, CellStart, RowStart, Spots;
    var n := RowStart(rows, r) + k;
    var occupied, column := Run(Spots(rows), n).occupied, CellColumns(rows)[n].column;
    BoundIsLastHold(rows, n, column);
    forall x | CellStart(rows, r, k) <= x < column ensures LastHold(rows, n, x) > r {
      HeldBeforeFirstFree(occupied, r, CellStart(rows, r, k), x);
      BoundIsLastHold(rows, n, x);
    }
  }

  // ---------- The conditions, on the table algorithm's own columns ----------

  /** The column from which the table algorithm looks for a place for spot `i`. */
  ghost function SlotCursor(spots: seq<Spot>, i: nat): nat
    requires i < |spots|
  {
    if spots[i].index == 0 then 0 else SlotRun(spots, i).column
  }

  ghost predicate Covers(spots: seq<Spot>, i: nat, x: nat)
    requires i < |spots|
  {
    SlotColumn(spots, i) <= x < SlotColumn(spots, i) + spots[i].colSpan
  }

  /** Where the last of the first `n` cells that covers column `x` ends; zero when none does. */
  ghost function LastEnd(spots: seq<Spot>, n: nat, x: nat): nat
    requires n <= |spots|
  {
    if n == 0 then 0 else if Covers(spots, n - 1, x) then spots[n - 1].spanEnd else LastEnd(spots, n - 1, x)
  }

  /** Every column a cell skips is held by the last cell that covers it. */
  ghost predicate SkippedAreHeld(spots: seq<Spot>) {
    forall i, x: nat :: 0 <= i < |spots| && SlotCursor(spots, i) <= x < SlotColumn(spots, i) ==>
      LastEnd(spots, i, x) > spots[i].row
  }

  /** The column the code gives spot `i`. */
  function ColumnOf(spots: seq<Spot>, i: nat): nat
    requires i < |spots|
  {
    Seat(Run(spots, i), spots[i])
  }

  /** The first `n` cells get the table algorithm's columns. */
  ghost predicate Agree(spots: seq<Spot>, n: nat)
    requires n <= |spots|
  {
    forall i :: 0 <= i < n ==> ColumnOf(spots, i) == SlotColumn(spots, i)
  }

  /** While the columns agree, each bound is where the last covering cell ends. */
  lemma {:induction false} BoundIsLastEnd(spots: seq<Spot>, n: nat, x: nat)
    requires n <= |spots| && Agree(spots, n)
    ensures Bound(Run(spots, n).occupied, x) == LastEnd(spots, n, x)
  {
    hide Sit, Seat, SlotColumn;
    if n > 0 {
      BoundIsLastEnd(spots, n - 1, x);
      assert ColumnOf(spots, n - 1) == SlotColumn(spots, n - 1);
      SitBound(Run(spots, n - 1), spots[n - 1], x);
    }
  }

  lemma {:induction false} CursorsAgree(spots: seq<Spot>, n: nat)
    requires n <= |spots| && Agree(spots, n)
    ensures Run(spots, n).column == SlotRun(spots, n).column
  {
    if n > 0 {
      assert Seat(Run(spots, n - 1), spots[n - 1]) == ColumnOf(spots, n - 1) == SlotColumn(spots, n - 1);
    }
  }

  /** A column that is still held by its last covering cell is taken. */
  lemma {:induction false} HeldIsTaken(spots: seq<Spot>, n: nat, row: nat, x: nat)
    requires n <= |spots| && forall i :: 0 <= i < n ==> spots[i].row <= row
    requires LastEnd(spots, n, x) > row
    ensures (row, x) in SlotRun(spots, n).taken
  {
    hide SlotSeat;
    if !Covers(spots, n - 1, x) {
      HeldIsTaken(spots, n - 1, row, x);
    }
  }

  /** As long as the columns agree, the next one agrees exactly when the columns it skips are held. */
  lemma {:induction false} NextAgreesExactly(spots: seq<Spot>, i: nat)
    requires InRowOrder(spots) && i < |spots| && Agree(spots, i)
    ensures ColumnOf(spots, i) == SlotColumn(spots, i) <==>
      forall x: nat :: SlotCursor(spots, i) <= x < SlotColumn(spots, i) ==> LastEnd(spots, i, x) > spots[i].row
  {
    var occupied, row, cursor := Run(spots, i).occupied, spots[i].row, SlotCursor(spots, i);
    var seat, column := ColumnOf(spots, i), SlotColumn(spots, i);
    CursorsAgree(spots, i);
    assert seat == FirstFree(occupied, row, cursor);
    forall x: nat ensures Bound(occupied, x) == LastEnd(spots, i, x) {
      BoundIsLastEnd(spots, i, x);
    }
    assert LastEnd(spots, i, column) <= row by {
      if LastEnd(spots, i, column) > row {
        HeldIsTaken(spots, i, row, column);
      }
    }
    assert LastEnd(spots, i, seat) <= row;
    if column < seat {
      HeldBeforeFirstFree(occupied, row, cursor, column);
    }
    forall x: nat | cursor <= x < seat ensures LastEnd(spots, i, x) > row {
      HeldBeforeFirstFree(occupied, row, cursor, x);
    }
  }

  lemma {:induction false} AgreeWhileHeld(spots: seq<Spot>, n: nat)
    requires InRowOrder(spots) && SkippedAreHeld(spots) && n <= |spots|
    ensures Agree(spots, n)
  {
    if n > 0 {
      AgreeWhileHeld(spots, n - 1);
      NextAgreesExactly(spots, n - 1);
    }
  }

  /** Every cell gets the table algorithm's column if and only if each column it skips is held by its last cover. */
  lemma {:induction false} ColumnsMatchExactly(rows: seq<Row>)
    ensures (forall i :: 0 <= i < |Spots(rows)| ==> CellColumns(rows)[i].column == SlotColumn(Spots(rows), i))
      <==> SkippedAreHeld(Spots(rows))
  {
    var spots := Spots(rows);
    SpotsInRowOrder(rows, |rows|);
    forall i | 0 <= i < |spots| ensures CellColumns(rows)[i].column == ColumnOf(spots, i) {
      PlacedAt(spots, |spots|, i);
    }
    if SkippedAreHeld(spots) {
      AgreeWhileHeld(spots, |spots|);
    } else if Agree(spots, |spots|) {
      forall i | 0 <= i < |spots|
        ensures forall x: nat ::
          SlotCursor(spots, i) <= x < SlotColumn(spots, i) ==> LastEnd(spots, i, x) > spots[i].row
      {
        NextAgreesExactly(spots, i);
      }
    }
  }

  /** No cell ends where a longer cell above still covers one of its columns. */
  ghost predicate NoneCutShort(spots: seq<Spot>) {
    forall i, x: nat :: 0 <= i < |spots| && Covers(spots, i, x) ==> (spots[i].spanEnd, x) !in SlotRun(spots, i).taken
  }

  lemma {:induction false} LowersIsCut(spots: seq<Spot>, i: nat)
    requires InRowOrder(spots) && i < |spots|
    requires forall j {:trigger Run(spots, j)} :: 0 <= j < i ==> !Lowers(Run(spots, j), spots[j])
    ensures Lowers(Run(spots, i), spots[i]) <==>
      exists x: nat :: Covers(spots, i, x) && (spots[i].spanEnd, x) in SlotRun(spots, i).taken
  {
    SeatMatches(spots, i);
    var g, end := Run(spots, i), spots[i].spanEnd;
    forall x: nat ensures (end, x) in SlotRun(spots, i).taken <==> Bound(g.occupied, x) > end {
    }
    if Lowers(g, spots[i]) {
      var x :| Seat(g, spots[i]) <= x < Seat(g, spots[i]) + spots[i].colSpan && Bound(g.occupied, x) > end;
      assert Covers(spots, i, x);
    }
  }

  lemma {:induction false} NotCutNeverLowers(spots: seq<Spot>, n: nat)
    requires InRowOrder(spots) && NoneCutShort(spots) && n <= |spots|
    ensures forall i {:trigger Run(spots, i)} :: 0 <= i < n ==> !Lowers(Run(spots, i), spots[i])
  {
    if n > 0 {
      NotCutNeverLowers(spots, n - 1);
      LowersIsCut(spots, n - 1);
    }
  }

  /** No cell shortens a held column if and only if, in the standard's table, none ends above a cell it overlaps. */
  lemma {:induction false} NeverLowersExactly(rows: seq<Row>)
    ensures NeverLowers(Spots(rows)) <==> NoneCutShort(Spots(rows))
  {
    var spots := Spots(rows);
    SpotsInRowOrder(rows, |rows|);
    if NoneCutShort(spots) {
      NotCutNeverLowers(spots, |spots|);
    }
    if NeverLowers(spots) {
      forall i, x: nat | 0 <= i < |spots| && Covers(spots, i, x)
        ensures (spots[i].spanEnd, x) !in SlotRun(spots, i).taken
      {
        LowersIsCut(spots, i);
        assert !Lowers(Run(spots, i), spots[i]);
      }
    }
  }

  ghost predicate SlotsDisjoint(spots: seq<Spot>) {
    forall i, j :: 0 <= i < j < |spots| ==>
      Rect(spots[i], SlotColumn(spots, i)) !! Rect(spots[j], SlotColumn(spots, j))
  }

  /** The code's rectangles are pairwise disjoint if and only if the table algorithm's are. */
  lemma {:induction false} DisjointLikeReference(rows: seq<Row>)
    ensures Disjoint(Spots(rows)) <==> SlotsDisjoint(Spots(rows))
  {
    var spots := Spots(rows);
    SpotsInRowOrder(rows, |rows|);
    DisjointExactly(rows);
    if ClaimsFree(spots) {
      ClaimsFreeNeverLowers(spots);
      forall i | 0 <= i < |spots| ensures Columns(spots)[i] == SlotColumn(spots, i) {
        SeatMatches(spots, i);
      }
    } else {
      var j := FirstOverlap(spots, |spots|);
      var i, slot := SharedSlot(spots, j);
      assert slot in Rect(spots[i], SlotColumn(spots, i)) * Rect(spots[j], SlotColumn(spots, j));
    }
  }

  function Plain(colSpan: Span, rowSpan: nat): Cell {
    Cell(colSpan, rowSpan, Attrs(None, None))
  }

  /** Three rows of one group: the wide cell of the second row overwrites the tall cell's bound. */
  function OverwritingTable(): seq<Row> {
    [Row(0, [Plain(1, 1), Plain(1, 3)]), Row(0, [Plain(2, 1)]), Row(0, [Plain(1, 1), Plain(1, 1)])]
  }

  /** There the last cell lands in column 1, under the tall cell; the table algorithm seats it in column 2. */
  lemma {:induction false} OverwrittenBoundMovesCell()
    ensures !NeverLowers(Spots(OverwritingTable())) && !Disjoint(Spots(OverwritingTable()))
    ensures |Spots(OverwritingTable())| == 5
    ensures CellColumns(OverwritingTable())[4].column == 1
    ensures SlotColumn(Spots(OverwritingTable()), 4) == 2
  {
    var spots := OverwritingSpots();
    OverwritingRun(spots);
    PlacedAt(spots, 5, 4);
    assert Bound([1, 3], 1) == 3 && Lowers(Run(spots, 2), spots[2]);
    OverwritingSlots(spots);
    NeverLowersUnlessShared(OverwritingTable());
  }

  lemma {:induction false} NeverLowersUnlessShared(rows: seq<Row>)
    ensures Disjoint(Spots(rows)) ==> NeverLowers(Spots(rows))
  {
    SpotsInRowOrder(rows, |rows|);
    DisjointExactly(rows);
    if ClaimsFree(Spots(rows)) {
      ClaimsFreeNeverLowers(Spots(rows));
    }
  }

  lemma {:induction false} OverwritingRun(spots: seq<Spot>)
    requires spots == [Spot(0, 0, 1, 1), Spot(0, 1, 1, 3), Spot(1, 0, 2, 2), Spot(2, 0, 1, 3), Spot(2, 1, 1, 3)]
    ensures Run(spots, 2) == Grid([1, 3], 2) && Run(spots, 4) == Grid([3, 2], 1)
  {
    var g2, g3 := Grid([1, 3], 2), Grid([2, 2], 2);
    assert Run(spots, 2) == g2 by {
      assert Run(spots, 0) == Grid([], 0);
      assert Sit(Grid([], 0), spots[0]) == Grid([1], 1) == Run(spots, 1);
    }
    assert Run(spots, 3) == g3 by {
      assert Claim([1, 3], 0, 1, 2) == [2, 3];
    }
  }

  lemma {:induction false} OverwritingSpotOf(rows: seq<Row>)
    requires rows == OverwritingTable()
    ensures SpotOf(rows, 0, 0) == Spot(0, 0, 1, 1) && SpotOf(rows, 0, 1) == Spot(0, 1, 1, 3)
    ensures SpotOf(rows, 1, 0) == Spot(1, 0, 2, 2)
    ensures SpotOf(rows, 2, 0) == Spot(2, 0, 1, 3) && SpotOf(rows, 2, 1) == Spot(2, 1, 1, 3)
  {
    assert GroupEndFrom(rows, 0, 2) == 3;
  }

  lemma {:induction false} OverwritingSpots() returns (spots: seq<Spot>)
    ensures spots == Spots(OverwritingTable())
    ensures spots == [Spot(0, 0, 1, 1), Spot(0, 1, 1, 3), Spot(1, 0, 2, 2), Spot(2, 0, 1, 3), Spot(2, 1, 1, 3)]
  {
    var rows := OverwritingTable();
    spots := Spots(rows);
    OverwritingSpotOf(rows);
    hide SpotOf;
    assert RowSpots(rows, 0, 2) == [SpotOf(rows, 0, 0), SpotOf(rows, 0, 1)] by {
      assert RowSpots(rows, 0, 1) == [SpotOf(rows, 0, 0)];
    }
    assert RowSpots(rows, 1, 1) == [SpotOf(rows, 1, 0)];
    assert RowSpots(rows, 2, 2) == [SpotOf(rows, 2, 0), SpotOf(rows, 2, 1)] by {
      assert RowSpots(rows, 2, 1) == [SpotOf(rows, 2, 0)];
    }
    hide RowSpots;
    assert SpotsUpTo(rows, 1) == RowSpots(rows, 0, 2);
    assert SpotsUpTo(rows, 2) == RowSpots(rows, 0, 2) + RowSpots(rows, 1, 1);
  }

  lemma {:induction false} OverwritingSlots(spots: seq<Spot>)
    requires spots == [Spot(0, 0, 1, 1), Spot(0, 1, 1, 3), Spot(1, 0, 2, 2), Spot(2, 0, 1, 3), Spot(2, 1, 1, 3)]
    ensures SlotColumn(spots, 4) == 2
  {
    var t2: set<Slot> := {(0, 0), (0, 1), (1, 1), (2, 1)};
    assert SlotRun(spots, 2) == SlotGrid(t2, 2) by {
      assert SlotRun(spots, 0) == SlotGrid({}, 0);
      assert Rect(spots[0], 0) == {(0, 0)};
      assert SlotRun(spots, 1) == SlotGrid({(0, 0)}, 1);
      assert Rect(spots[1], 1) == {(0, 1), (1, 1), (2, 1)};
    }
    var t4 := t2 + {(1, 0)} + {(2, 0)};
    assert SlotRun(spots, 4) == SlotGrid(t4, 1) by {
      assert Rect(spots[2], 0) == {(1, 0), (1, 1)};
      assert SlotRun(spots, 3) == SlotGrid(t2 + {(1, 0)}, 2);
      assert Rect(spots[3], 0) == {(2, 0)};
    }
    assert (2, 1) in t4 && FirstOpen(t4, 2, 2) == 2;
  }

  // ---------- Row groups are independent ----------

  /** A row starts a group when the row above it has another parent. */
  predicate StartsGroup(rows: seq<Row>, r: nat)
    requires r <= |rows|
  {
    0 < r < |rows| ==> rows[r - 1].parent != rows[r].parent
  }

  lemma {:induction false} GroupStops(rows: seq<Row>, q: nat, g: nat, r: nat)
    requires q < g <= r <= |rows| && StartsGroup(rows, r)
    requires forall i :: q <= i < g ==> rows[i].parent == rows[q].parent
    ensures GroupEndFrom(rows, q, g) <= r
    decreases r - g
  {
    if g < r && rows[g].parent == rows[q].parent {
      GroupStops(rows, q, g + 1, r);
    }
  }

  lemma {:induction false} SpansStop(rows: seq<Row>, q: nat, r: nat)
    requires q <= r <= |rows| && StartsGroup(rows, r)
    ensures forall i :: 0 <= i < |SpotsUpTo(rows, q)| ==> SpotsUpTo(rows, q)[i].spanEnd <= r
  {
    if q > 0 {
      SpansStop(rows, q - 1, r);
      GroupStops(rows, q - 1, q, r);
      RowSpotAt(rows, q - 1, |rows[q - 1].cells|);
    }
  }

  lemma {:induction false} BoundsStop(spots: seq<Spot>, n: nat, r: nat, c: nat)
    requires n <= |spots|
    requires forall i :: 0 <= i < n ==> spots[i].spanEnd <= r
    ensures Bound(Run(spots, n).occupied, c) <= r
  {
    if n > 0 {
      BoundsStop(spots, n - 1, r, c);
      var s, g := spots[n - 1], Run(spots, n - 1);
      ClaimBound(g.occupied, Seat(g, s), s.colSpan, s.spanEnd, c);
    }
  }

  /** No rowspan crosses a group boundary: at the first row of a group every column is free. */
  lemma {:induction false} GroupStartsFree(rows: seq<Row>, r: nat, c: nat)
    requires r <= |rows| && StartsGroup(rows, r)
    ensures RowStart(rows, r) <= |Spots(rows)|
    ensures Bound(Run(Spots(rows), RowStart(rows, r)).occupied, c) <= r
  {
    SpotsPrefix(rows, r, |rows|);
    SpansStop(rows, r, r);
    BoundsStop(Spots(rows), RowStart(rows, r), r, c);
  }

  function ShiftSpot(s: Spot, down: nat): Spot {
    Spot(s.row + down, s.index, s.colSpan, s.spanEnd + down)
  }

  function ShiftPlaced(cells: seq<Placed>, down: nat): (shifted: seq<Placed>)
    ensures |shifted| == |cells|
    ensures forall i :: 0 <= i < |cells| ==>
      shifted[i] == Placed(cells[i].row + down, cells[i].index, cells[i].column)
  {
    seq(|cells|, i requires 0 <= i < |cells| => Placed(cells[i].row + down, cells[i].index, cells[i].column))
  }

  /** `whole` is `xs` followed by `ys` moved down `down` rows. */
  ghost predicate Stacked(whole: seq<Spot>, xs: seq<Spot>, ys: seq<Spot>, down: nat) {
    && |whole| == |xs| + |ys|
    && (forall i :: 0 <= i < |xs| ==> whole[i] == xs[i])
    && (forall i {:trigger ys[i]} :: 0 <= i < |ys| ==> whole[|xs| + i] == ShiftSpot(ys[i], down))
  }

  lemma {:induction false} GroupEndLeft(a: seq<Row>, b: seq<Row>, r: nat, g: nat)
    requires r < g <= |a| && b != [] && a[|a| - 1].parent != b[0].parent
    requires forall i :: r <= i < g ==> a[i].parent == a[r].parent
    ensures GroupEndFrom(a + b, r, g) == GroupEndFrom(a, r, g)
    decreases |a| - g
  {
    if g < |a| && a[g].parent == a[r].parent {
      GroupEndLeft(a, b, r, g + 1);
    }
  }

  lemma {:induction false} GroupEndRight(a: seq<Row>, b: seq<Row>, r: nat, g: nat)
    requires r < g <= |b|
    ensures GroupEndFrom(a + b, |a| + r, |a| + g) == |a| + GroupEndFrom(b, r, g)
    decreases |b| - g
  {
    if g < |b| && b[g].parent == b[r].parent {
      GroupEndRight(a, b, r, g + 1);
    }
  }

  lemma {:induction false} SpotsLeft(a: seq<Row>, b: seq<Row>, r: nat)
    requires r <= |a| && b != [] && (a == [] || a[|a| - 1].parent != b[0].parent)
    ensures SpotsUpTo(a + b, r) == SpotsUpTo(a, r)
  {
    if r > 0 {
      SpotsLeft(a, b, r - 1);
      GroupEndLeft(a, b, r - 1, r);
      RowSpotAt(a, r - 1, |a[r - 1].cells|);
      RowSpotAt(a + b, r - 1, |a[r - 1].cells|);
    }
  }

  lemma {:induction false} StackMore(whole: seq<Spot>, more: seq<Spot>, xs: seq<Spot>, ys: seq<Spot>,
      ysMore: seq<Spot>, down: nat)
    requires Stacked(whole, xs, ys, down) && Stacked(more, [], ysMore, down)
    ensures Stacked(whole + more, xs, ys + ysMore, down)
  {
    forall i | 0 <= i < |ys + ysMore|
      ensures (whole + more)[|xs| + i] == ShiftSpot((ys + ysMore)[i], down)
    {
      if i < |ys| {
        assert whole[|xs| + i] == ShiftSpot(ys[i], down);
      } else {
        assert more[i - |ys|] == ShiftSpot(ysMore[i - |ys|], down);
      }
    }
  }

  lemma {:induction false} RowSpotsRight(a: seq<Row>, b: seq<Row>, r: nat)
    requires r < |b|
    ensures (a + b)[|a| + r] == b[r]
    ensures Stacked(RowSpots(a + b, |a| + r, |b[r].cells|), [], RowSpots(b, r, |b[r].cells|), |a|)
  {
    GroupEndRight(a, b, r, r + 1);
    RowSpotAt(b, r, |b[r].cells|);
    RowSpotAt(a + b, |a| + r, |b[r].cells|);
  }

  lemma {:induction false} SpotsRight(a: seq<Row>, b: seq<Row>, r: nat)
    requires r <= |b| && b != [] && (a == [] || a[|a| - 1].parent != b[0].parent)
    ensures Stacked(SpotsUpTo(a + b, |a| + r), Spots(a), SpotsUpTo(b, r), |a|)
  {
    if r == 0 {
      SpotsLeft(a, b, |a|);
    } else {
      SpotsRight(a, b, r - 1);
      RowSpotsRight(a, b, r - 1);
      var m := |b[r - 1].cells|;
      StackMore(SpotsUpTo(a + b, |a| + r - 1), RowSpots(a + b, |a| + r - 1, m), Spots(a),
        SpotsUpTo(b, r - 1), RowSpots(b, r - 1, m), |a|);
    }
  }

  lemma {:induction false} RunOfPrefix(whole: seq<Spot>, xs: seq<Spot>, n: nat)
    requires n <= |xs| <= |whole| && forall i :: 0 <= i < |xs| ==> whole[i] == xs[i]
    ensures Run(whole, n) == Run(xs, n)
  {
    if n > 0 {
      RunOfPrefix(whole, xs, n - 1);
    }
  }

  /** `h` is `g` as seen `down` rows further down. */
  ghost predicate Lowered(g: seq<nat>, h: seq<nat>, down: nat) {
    forall c: nat {:trigger Bound(g, c)} {:trigger Bound(h, c)} ::
      Bound(h, c) == if Bound(g, c) <= down then 0 else Bound(g, c) - down
  }

  lemma {:induction false} SameFree(g: seq<nat>, h: seq<nat>, down: nat, row: nat, c: nat)
    requires Lowered(g, h, down)
    ensures FirstFree(g, down + row, c) == FirstFree(h, row, c)
    decreases |g| - c
  {
    if Bound(g, c) > down + row {
      SameFree(g, h, down, row, c + 1);
    }
  }

  lemma {:induction false} ClaimsAlign(g: Grid, h: Grid, s: Spot, down: nat)
    requires g.Valid() && h.Valid() && Lowered(g.occupied, h.occupied, down)
    requires Seat(g, ShiftSpot(s, down)) == Seat(h, s)
    ensures Lowered(Sit(g, ShiftSpot(s, down)).occupied, Sit(h, s).occupied, down)
  {
    var g', h' := Sit(g, ShiftSpot(s, down)).occupied, Sit(h, s).occupied;
    forall c: nat ensures Bound(h', c) == if Bound(g', c) <= down then 0 else Bound(g', c) - down {
      ClaimBound(g.occupied, Seat(h, s), s.colSpan, s.spanEnd + down, c);
      ClaimBound(h.occupied, Seat(h, s), s.colSpan, s.spanEnd, c);
    }
  }

  /** Two runs stand level: same cursor, and bounds that differ by the rows above. */
  ghost predicate Level(g: Grid, h: Grid, down: nat, started: bool) {
    Lowered(g.occupied, h.occupied, down) && (started ==> g.column == h.column)
  }

  lemma {:induction false} LevelSeats(g: Grid, h: Grid, s: Spot, down: nat, started: bool)
    requires g.Valid() && h.Valid() && Level(g, h, down, started)
    requires s.index == 0 || started
    ensures Seat(g, ShiftSpot(s, down)) == Seat(h, s)
  {
    SameFree(g.occupied, h.occupied, down, s.row, if s.index == 0 then 0 else h.column);
  }

  lemma {:induction false} RunsAlign(whole: seq<Spot>, xs: seq<Spot>, ys: seq<Spot>, down: nat, n: nat)
    requires Stacked(whole, xs, ys, down) && n <= |ys|
    requires ys != [] ==> ys[0].index == 0
    requires forall c: nat :: Bound(Run(whole, |xs|).occupied, c) <= down
    ensures Level(Run(whole, |xs| + n), Run(ys, n), down, n > 0)
  {
    if n > 0 {
      RunsAlign(whole, xs, ys, down, n - 1);
      var g, h, s := Run(whole, |xs| + n - 1), Run(ys, n - 1), ys[n - 1];
      assert whole[|xs| + (n - 1)] == ShiftSpot(s, down);
      LevelSeats(g, h, s, down, n > 1);
      ClaimsAlign(g, h, s, down);
    }
  }

  lemma {:induction false} PlacedBelow(whole: seq<Spot>, xs: seq<Spot>, ys: seq<Spot>, down: nat, i: nat)
    requires Stacked(whole, xs, ys, down) && i < |ys|
    requires ys[0].index == 0
    requires forall c: nat :: Bound(Run(whole, |xs|).occupied, c) <= down
    ensures PlaceAt(whole, |xs| + i)
         == Placed(PlaceAt(ys, i).row + down, PlaceAt(ys, i).index, PlaceAt(ys, i).column)
  {
    RunsAlign(whole, xs, ys, down, i);
    LevelSeats(Run(whole, |xs| + i), Run(ys, i), ys[i], down, i > 0);
  }

  lemma {:induction false} FirstSpotOpensRow(rows: seq<Row>, r: nat)
    requires r <= |rows|
    ensures SpotsUpTo(rows, r) != [] ==> SpotsUpTo(rows, r)[0].index == 0
  {
    if r > 0 {
      FirstSpotOpensRow(rows, r - 1);
      RowSpotAt(rows, r - 1, |rows[r - 1].cells|);
    }
  }

  lemma {:induction false} StackedAbove(whole: seq<Spot>, xs: seq<Spot>, i: nat)
    requires i < |xs| <= |whole| && forall i :: 0 <= i < |xs| ==> whole[i] == xs[i]
    ensures PlaceUpTo(whole, |whole|)[i] == PlaceUpTo(xs, |xs|)[i]
  {
    PlacedAt(whole, |whole|, i);
    PlacedAt(xs, |xs|, i);
    RunOfPrefix(whole, xs, i);
  }

  lemma {:induction false} StackedBelow(whole: seq<Spot>, xs: seq<Spot>, ys: seq<Spot>, down: nat, i: nat)
    requires Stacked(whole, xs, ys, down) && i < |ys| && ys[0].index == 0
    requires forall c: nat :: Bound(Run(whole, |xs|).occupied, c) <= down
    ensures PlaceUpTo(whole, |whole|)[|xs| + i] == ShiftPlaced(PlaceUpTo(ys, |ys|), down)[i]
  {
    PlacedAt(whole, |whole|, |xs| + i);
    PlacedAt(ys, |ys|, i);
    PlacedBelow(whole, xs, ys, down, i);
  }

  lemma {:induction false} StackedColumns(whole: seq<Spot>, xs: seq<Spot>, ys: seq<Spot>, down: nat)
    requires Stacked(whole, xs, ys, down)
    requires ys != [] ==> ys[0].index == 0
    requires forall c: nat :: Bound(Run(whole, |xs|).occupied, c) <= down
    ensures PlaceUpTo(whole, |whole|) == PlaceUpTo(xs, |xs|) + ShiftPlaced(PlaceUpTo(ys, |ys|), down)
  {
    var all, left, lower := PlaceUpTo(whole, |whole|), PlaceUpTo(xs, |xs|), ShiftPlaced(PlaceUpTo(ys, |ys|), down);
    forall i | 0 <= i < |left| ensures all[i] == left[i] {
      StackedAbove(whole, xs, i);
    }
    forall i | 0 <= i < |lower| ensures all[|left| + i] == lower[i] {
      StackedBelow(whole, xs, ys, down, i);
    }
    IsConcat(all, left, lower);
  }

  lemma {:induction false} SecondGroupStartsFree(a: seq<Row>, b: seq<Row>, c: nat)
    requires b != [] && (a == [] || a[|a| - 1].parent != b[0].parent)
    ensures |Spots(a)| <= |Spots(a + b)|
    ensures Bound(Run(Spots(a + b), |Spots(a)|).occupied, c) <= |a|
  {
    SpotsLeft(a, b, |a|);
    GroupStartsFree(a + b, |a|, c);
  }

  /** Seating two runs of groups together is seating each alone, whatever the colspans overlap. */
  lemma {:induction false} GroupsIndependent(a: seq<Row>, b: seq<Row>)
    requires a != [] && b != [] ==> a[|a| - 1].parent != b[0].parent
    ensures CellColumns(a + b) == CellColumns(a) + ShiftPlaced(CellColumns(b), |a|)
  {
    hide Run, SpotsUpTo, PlaceUpTo, Stacked;
    if b == [] {
      assert a + b == a;
      NothingSeated();
    } else {
      SpotsRight(a, b, |b|);
      FirstSpotOpensRow(b, |b|);
      forall c: nat
        ensures |Spots(a)| <= |Spots(a + b)| && Bound(Run(Spots(a + b), |Spots(a)|).occupied, c) <= |a|
      {
        SecondGroupStartsFree(a, b, c);
      }
      StackedColumns(Spots(a + b), Spots(a), Spots(b), |a|);
    }
  }

  lemma {:induction false} NothingSeated()
    ensures CellColumns([]) == []
  {
  }
}
