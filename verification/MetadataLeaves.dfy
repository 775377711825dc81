/**
 That nothing is lost: the keys and leaf texts of a metadata tree, by plain recursion over its items and
 entries, are what the rendering shows, whether as nested lists, as rows or as a table.
 */
module MetadataLeaves {
  import opened Wrappers
  import opened OrderedSet
  import opened HtmlText
  import opened MetadataRender
  import opened MetadataDom

  /** Some leaf of the tree has that text. */
  ghost predicate HasLeaf(v: Value, text: string) {
    match v
    case Null => false
    case Bool(b) => text == if b then "true" else "false"
    case Number(number) => text == number
    case Text(t) => text == t
    case Array(items) => exists i :: 0 <= i < |items| && HasLeaf(items[i], text)
    case Object(entries) => exists i :: 0 <= i < |entries| && HasLeaf(entries[i].value, text)
  }

  /** Some object of the tree has that key. */
  ghost predicate HasKeyIn(v: Value, key: string) {
    match v
    case Array(items) => exists i :: 0 <= i < |items| && HasKeyIn(items[i], key)
    case Object(entries) => exists i :: 0 <= i < |entries| && (entries[i].key == key || HasKeyIn(entries[i].value, key))
    case _ => false
  }

  /** Every object of the tree has its keys once. */
  ghost predicate Proper(v: Value) {
    match v
    case Array(items) => forall i :: 0 <= i < |items| ==> Proper(items[i])
    case Object(entries) =>
      && (forall i, j :: 0 <= i < j < |entries| ==> entries[i].key != entries[j].key)
      && (forall i :: 0 <= i < |entries| ==> Proper(entries[i].value))
    case _ => true
  }

  /** The text is a key or a leaf of the tree. */
  ghost predicate Holds(v: Value, text: string) {
    HasLeaf(v, text) || HasKeyIn(v, text)
  }

  lemma {:induction false} NonEmptiesAre(texts: seq<string>, text: string)
    ensures text in NonEmpties(texts) <==> text in texts && text != ""
  {
    if texts != [] {
      NonEmptiesAre(texts[1..], text);
      assert texts == [texts[0]] + texts[1..];
    }
  }

  lemma {:induction false} StringsAre(items: seq<Value>, text: string)
    requires AllText(items)
    ensures text in StringsOf(items) <==> exists i :: 0 <= i < |items| && HasLeaf(items[i], text)
  {
    if items != [] {
      assert items[0].Text?;
      StringsAre(items[1..], text);
      if i :| 0 <= i < |items[1..]| && HasLeaf(items[1..][i], text) {
        assert items[i + 1] == items[1..][i];
      }
      if i :| 0 < i < |items| && HasLeaf(items[i], text) {
        assert items[1..][i - 1] == items[i];
      }
    }
  }

  lemma {:induction false} RowLeavesAre(row: seq<Entry>, columns: seq<string>, text: string)
    ensures text in RowLeaves(row, columns) <==> exists c :: 0 <= c < |columns| && Leaf(Lookup(row, columns[c])) == text
  {
    if columns != [] {
      RowLeavesAre(row, columns[1..], text);
      if c :| 0 <= c < |columns[1..]| && Leaf(Lookup(row, columns[1..][c])) == text {
        assert columns[c + 1] == columns[1..][c];
      }
      if c :| 0 < c < |columns| && Leaf(Lookup(row, columns[c])) == text {
        assert columns[1..][c - 1] == columns[c];
      }
    }
  }

  lemma {:induction false} TableLeavesAre(rows: seq<seq<Entry>>, columns: seq<string>, text: string)
    ensures text in TableLeaves(rows, columns) <==> exists r :: 0 <= r < |rows| && text in RowLeaves(rows[r], columns)
  {
    if rows != [] {
      TableLeavesAre(rows[1..], columns, text);
      if r :| 0 <= r < |rows[1..]| && text in RowLeaves(rows[1..][r], columns) {
        assert rows[r + 1] == rows[1..][r];
      }
      if r :| 0 < r < |rows| && text in RowLeaves(rows[r], columns) {
        assert rows[1..][r - 1] == rows[r];
      }
    }
  }

  /** A primitive's text is its one leaf. */
  lemma {:induction false} PrimitiveShows(v: Value, text: string)
    requires IsPrimitive(v) && text != ""
    ensures !HasKeyIn(v, text)
    ensures HasLeaf(v, text) ==> Leaf(Some(v)) == text
    ensures Leaf(Some(v)) == text ==> text == DASH || HasLeaf(v, text)
  {
  }

  /** A row of a table shows the leaves of its own object. */
  lemma {:induction false} RowShows(v: Value, columns: seq<string>, text: string)
    requires IsFlatObject(v) && Proper(v) && text != ""
    requires forall i :: 0 <= i < |v.entries| ==> v.entries[i].key in columns
    ensures HasLeaf(v, text) ==> text in RowLeaves(v.entries, columns)
    ensures text in RowLeaves(v.entries, columns) ==> text == DASH || HasLeaf(v, text)
  {
    var row := v.entries;
    RowLeavesAre(row, columns, text);
    if HasLeaf(v, text) {
      var i :| 0 <= i < |row| && HasLeaf(row[i].value, text);
      LookupFindsFirst(row, i);
      PrimitiveShows(row[i].value, text);
      var c :| 0 <= c < |columns| && columns[c] == row[i].key;
      assert Leaf(Lookup(row, columns[c])) == text;
    }
    if text in RowLeaves(row, columns) {
      var c :| 0 <= c < |columns| && Leaf(Lookup(row, columns[c])) == text;
      if HasKey(row, |row|, columns[c]) {
        var i :| 0 <= i < |row| && row[i].key == columns[c];
        LookupFindsFirst(row, i);
        PrimitiveShows(row[i].value, text);
      } else {
        LookupMisses(row, columns[c]);
      }
    }
  }

  /** A flat object's keys are its own. */
  lemma {:induction false} FlatKeys(v: Value, key: string)
    requires IsFlatObject(v)
    ensures HasKeyIn(v, key) <==> HasKey(v.entries, |v.entries|, key)
  {
  }

  /** A table shows the union of the keys, and the leaves of every row. */
  lemma {:induction false} TableShows(items: seq<Value>, text: string)
    requires AllFlat(items) && Proper(Array(items)) && text != ""
    ensures var rows := RowsOf(items);
      var columns := Columns(rows, |rows|);
      && (text in columns <==> HasKeyIn(Array(items), text))
      && (HasLeaf(Array(items), text) ==> text in TableLeaves(rows, columns))
      && (text in TableLeaves(rows, columns) ==> text == DASH || HasLeaf(Array(items), text))
  {
    var rows := RowsOf(items);
    var columns := Columns(rows, |rows|);
    ColumnsAreTheUnion(rows, |rows|);
    TableLeavesAre(rows, columns, text);
    forall r | 0 <= r < |items|
      ensures HasKeyIn(items[r], text) <==> HasKey(rows[r], |rows[r]|, text)
      ensures HasLeaf(items[r], text) ==> text in RowLeaves(rows[r], columns)
      ensures text in RowLeaves(rows[r], columns) ==> text == DASH || HasLeaf(items[r], text)
    {
      FlatKeys(items[r], text);
      forall i | 0 <= i < |rows[r]| ensures rows[r][i].key in columns {
        assert HasKey(rows[r], |rows[r]|, rows[r][i].key);
        assert SomeRowHas(rows, |rows|, rows[r][i].key);
      }
      RowShows(items[r], columns, text);
    }
    hide Columns, TableLeaves, RowLeaves, HasKey;
    assert SomeRowHas(rows, |rows|, text) <==> exists r :: 0 <= r < |items| && HasKeyIn(items[r], text);
  }

  lemma {:induction false} ValueShows(v: Value, text: string)
    requires Proper(v) && text != ""
    ensures Holds(v, text) ==> text in Shown(v)
    ensures text in Shown(v) ==> text == DASH || Holds(v, text)
    decreases v, 0
  {
    match v
    case Array(items) => ArrayShows(items, text);
    case Object(entries) =>
      EntriesShow(entries, text);
    case _ =>
      PrimitiveShows(v, text);
  }

  lemma {:induction false} ArrayShows(items: seq<Value>, text: string)
    requires Proper(Array(items)) && text != ""
    ensures Holds(Array(items), text) ==> text in Shown(Array(items))
    ensures text in Shown(Array(items)) ==> text == DASH || Holds(Array(items), text)
    decreases items, 2
  {
    hide Columns, TableLeaves;
    if items == [] {
    } else if AllText(items) {
      StringsAre(items, text);
      NonEmptiesAre(StringsOf(items), text);
      assert !HasKeyIn(Array(items), text);
    } else if AllFlat(items) {
      TableShows(items, text);
      NonEmptiesAre(Columns(RowsOf(items), |items|), text);
      if Columns(RowsOf(items), |items|) == [] {
        NoColumnsNoLeaves(items, text);
      }
    } else {
      ItemsShow(items, text);
    }
  }

  lemma {:induction false} NoColumnsNoLeaves(items: seq<Value>, text: string)
    requires AllFlat(items) && Columns(RowsOf(items), |items|) == []
    ensures !HasLeaf(Array(items), text)
  {
    var rows := RowsOf(items);
    ColumnsAreTheUnion(rows, |rows|);
    forall r | 0 <= r < |items| ensures !HasLeaf(items[r], text) {
      assert IsFlatObject(items[r]);
      if rows[r] != [] {
        assert HasKey(rows[r], |rows[r]|, rows[r][0].key);
        assert SomeRowHas(rows, |rows|, rows[r][0].key);
      }
    }
  }

  lemma {:induction false} ItemsShow(items: seq<Value>, text: string)
    requires Proper(Array(items)) && text != ""
    ensures Holds(Array(items), text) ==> text in ShownItems(items)
    ensures text in ShownItems(items) ==> text == DASH || Holds(Array(items), text)
    decreases items, 1
  {
    if items != [] {
      var rest := items[1..];
      assert forall i :: 0 <= i < |rest| ==> rest[i] == items[i + 1];
      assert Proper(Array(rest)) by {
        assert Proper(Array(items));
      }
      ValueShows(items[0], text);
      ItemsShow(rest, text);
      HoldsSplit(items, text);
    }
  }

  lemma {:induction false} HoldsSplit(items: seq<Value>, text: string)
    requires items != []
    ensures Holds(Array(items), text) <==> Holds(items[0], text) || Holds(Array(items[1..]), text)
  {
    var rest := items[1..];
    assert forall i :: 0 <= i < |rest| ==> rest[i] == items[i + 1];
    assert forall i :: 0 < i < |items| ==> items[i] == rest[i - 1];
  }

  lemma {:induction false} EntriesShow(entries: seq<Entry>, text: string)
    requires Proper(Object(entries)) && text != ""
    ensures Holds(Object(entries), text) ==> text in ShownEntries(entries)
    ensures text in ShownEntries(entries) ==> text == DASH || Holds(Object(entries), text)
    decreases entries, 1
  {
    if entries != [] {
      var rest := entries[1..];
      assert forall i :: 0 <= i < |rest| ==> rest[i] == entries[i + 1];
      assert Proper(Object(rest)) by {
        assert Proper(Object(entries));
      }
      ValueShows(entries[0].value, text);
      EntriesShow(rest, text);
      HoldsSplitEntries(entries, text);
    }
  }

  lemma {:induction false} HoldsSplitEntries(entries: seq<Entry>, text: string)
    requires entries != []
    ensures Holds(Object(entries), text) <==>
      entries[0].key == text || Holds(entries[0].value, text) || Holds(Object(entries[1..]), text)
  {
    var rest := entries[1..];
    assert forall i :: 0 <= i < |rest| ==> rest[i] == entries[i + 1];
    assert forall i :: 0 < i < |entries| ==> entries[i] == rest[i - 1];
  }

  /** Every key and every leaf text of the tree is read back from its rendering, and nothing else is but dashes. */
  lemma {:induction false} NothingIsLost(v: Value, text: string)
    requires Proper(v) && text != ""
    ensures Parse(Render(v)).Some?
    ensures Holds(v, text) ==> text in Texts(Parse(Render(v)).value)
    ensures text in Texts(Parse(Render(v)).value) ==> text == DASH || Holds(v, text)
  {
    RenderedShowsAll(v);
    ValueShows(v, text);
  }

  // ---------- Order and elements ----------

  /** The nested list of items has one element per item, in order. */
  lemma {:induction false} ItemsInOrder(items: seq<Value>, i: nat)
    requires i < |items|
    ensures |ItemsDom(items)| == |items| && ItemsDom(items)[i] == Element("li", Dom(items[i]))
  {
    if i > 0 {
      ItemsInOrder(items[1..], i - 1);
    } else if |items| > 1 {
      ItemsInOrder(items[1..], 0);
    }
  }

  /** An object has one row per entry, in order: its key in one cell, its value in the other. */
  lemma {:induction false} EntriesInOrder(entries: seq<Entry>, i: nat)
    requires i < |entries|
    ensures |EntriesDom(entries)| == |entries|
    ensures EntriesDom(entries)[i] ==
      Element(ROW, [Element(KEY, Plain(entries[i].key)), Element(CELL, Dom(entries[i].value))])
  {
    hide ROW, KEY, CELL;
    if i > 0 {
      EntriesInOrder(entries[1..], i - 1);
    } else if |entries| > 1 {
      EntriesInOrder(entries[1..], 0);
    }
  }

  lemma {:induction false} StringsInOrder(items: seq<Value>, i: nat)
    requires AllText(items) && i < |items|
    ensures |TextsDom(items)| == |items| && TextsDom(items)[i] == Element("li", Plain(items[i].text))
  {
    if i > 0 {
      StringsInOrder(items[1..], i - 1);
    } else if |items| > 1 {
      StringsInOrder(items[1..], 0);
    }
  }

  /**
   A list is read back as one list element per item, unless all items are objects of plain values; an object
   as one row per entry; what is empty as a dash.
   */
  lemma {:induction false} ListsAndObjects(v: Value)
    ensures v == Array([]) || v == Object([]) ==> Parse(Render(v)) == Some([Element(EM, [TextNode(DASH)])])
    ensures v.Array? && v.items != [] && (exists i :: 0 <= i < |v.items| && !IsFlatObject(v.items[i])) ==>
      && Parse(Render(v)).Some? && |Parse(Render(v)).value| == 1 && Parse(Render(v)).value[0].Element?
      && Parse(Render(v)).value[0].tag == LIST && |Parse(Render(v)).value[0].children| == |v.items|
      && forall i :: 0 <= i < |v.items| ==> ItemNode(v.items, i, Parse(Render(v)).value[0].children[i])
    ensures v.Object? && v.entries != [] ==>
      && Parse(Render(v)) == Some([Element(NESTED, EntriesDom(v.entries))])
  {
    hide EM, LIST, NESTED, Render, Parse;
    RenderedParses(v);
    if v.Array? && v.items != [] && exists i :: 0 <= i < |v.items| && !IsFlatObject(v.items[i]) {
      ListNodes(v.items);
    }
  }

  /** The element of an item: its tree, or the bare text of a string in a list of strings. */
  ghost predicate ItemNode(items: seq<Value>, i: nat, node: Node)
    requires i < |items|
  {
    node == Element("li", if AllText(items) then Plain(items[i].text) else Dom(items[i]))
  }

  lemma {:induction false} ListNodes(items: seq<Value>)
    requires items != [] && exists i :: 0 <= i < |items| && !IsFlatObject(items[i])
    ensures !AllFlat(items)
    ensures var nodes := if AllText(items) then TextsDom(items) else ItemsDom(items);
      |nodes| == |items| && forall i :: 0 <= i < |items| ==> ItemNode(items, i, nodes[i])
  {
    var nodes := if AllText(items) then TextsDom(items) else ItemsDom(items);
    forall i | 0 <= i < |items| ensures |nodes| == |items| && nodes[i] ==
      Element("li", if AllText(items) then Plain(items[i].text) else Dom(items[i]))
    {
      if AllText(items) {
        StringsInOrder(items, i);
      } else {
        ItemsInOrder(items, i);
      }
    }
    assert |nodes| == |items| by {
      if AllText(items) {
        StringsInOrder(items, 0);
      } else {
        ItemsInOrder(items, 0);
      }
    }
  }

  /** A value that is no list and no object. */
  predicate IsPlainValue(v: Value) {
    v.Null? || v.Bool? || v.Number? || v.Text?
  }

  /** A list of objects that hold plain values only is read back as a table, unless all of them are empty. */
  lemma {:induction false} PlainObjectsMakeTable(items: seq<Value>, r: nat)
    requires forall k :: 0 <= k < |items| ==> items[k].Object?
    requires forall k, i :: 0 <= k < |items| && 0 <= i < |items[k].entries| ==> IsPlainValue(items[k].entries[i].value)
    requires r < |items| && items[r].entries != []
    ensures Parse(Render(Array(items))).Some? && |Parse(Render(Array(items))).value| == 1
    ensures Parse(Render(Array(items))).value[0].Element? && Parse(Render(Array(items))).value[0].tag == WRAPPER
  {
    hide WRAPPER, TABLE, Parse, Render, Columns;
    assert AllFlat(items);
    RenderedTable(items, r);
  }
}
