/**
 * What a browser makes of the rendered metadata: a tag-stack reader, the tree it finds,
 * and the texts shown in document order.
 */
module MetadataDom {
  import opened Wrappers
  import opened SeqFacts
  import opened HtmlText
  import opened OrderedSet
  import opened MetadataRender

  datatype Node = Element(tag: string, children: seq<Node>) | TextNode(text: string)

  /** The open elements, innermost first, each with the nodes read so far. */
  datatype Open = Bottom(nodes: seq<Node>) | Inside(tag: string, nodes: seq<Node>, outer: Open)

  function Append(stack: Open, nodes: seq<Node>): Open {
    stack.(nodes := stack.nodes + nodes)
  }

  // ---------- The reader ----------

  /** The first place of `c` from `i` on, or the end. */
  function Find(html: string, c: char, i: nat): (k: nat)
    requires i <= |html|
    ensures i <= k <= |html| && (k < |html| ==> html[k] == c)
    ensures forall j :: i <= j < k ==> html[j] != c
    decreases |html| - i
  {
    if i == |html| || html[i] == c then i else Find(html, c, i + 1)
  }

  /** The name of an element, given its opening tag. */
  function NameOf(tag: string): string {
    if tag == "" || tag[0] == ' ' then "" else [tag[0]] + NameOf(tag[1..])
  }

  /** A tag opens an element, or closes the innermost one if that has its name. */
  function ReadTag(tag: string, stack: Open): Option<Open> {
    if tag == "" then None
    else if tag[0] != '/' then Some(Inside(tag, [], stack))
    else if stack.Inside? && tag[1..] == NameOf(stack.tag)
    then Some(Append(stack.outer, [Element(stack.tag, stack.nodes)]))
    else None
  }

  function Read(html: string, stack: Open): Option<Open>
    decreases |html|
  {
    if html == "" then Some(stack)
    else if html[0] == '<' then
      var end := Find(html, '>', 1);
      if end == |html| then None else
        match ReadTag(html[1..end], stack)
        case Some(next) => Read(html[end + 1..], next)
        case None => None
    else
      var end := Find(html, '<', 1);
      Read(html[end..], Append(stack, [TextNode(Unescape(html[..end]))]))
  }

  /** The tree of a text in which every element is closed, in order; nothing otherwise. */
  function Parse(html: string): Option<seq<Node>> {
    match Read(html, Bottom([]))
    case Some(Bottom(nodes)) => Some(nodes)
    case _ => None
  }

  // ---------- The tree that is meant ----------

  function Plain(text: string): seq<Node> {
    if text == "" then [] else [TextNode(text)]
  }

  const DASH_NODE := [Element(EM, [TextNode(DASH)])]

  function PrimitiveDom(v: Option<Value>): seq<Node> {
    if PrimitiveText(v) == "" then DASH_NODE else [TextNode(PrimitiveText(v))]
  }

  function HeaderDom(columns: seq<string>): (nodes: seq<Node>)
    ensures |nodes| == |columns|
    ensures forall i :: 0 <= i < |columns| ==> nodes[i] == Element("th", Plain(columns[i]))
  {
    if columns == [] then [] else [Element("th", Plain(columns[0]))] + HeaderDom(columns[1..])
  }

  function CellsDom(row: seq<Entry>, columns: seq<string>): (nodes: seq<Node>)
    ensures |nodes| == |columns|
    ensures forall i :: 0 <= i < |columns| ==> nodes[i] == Element("td", PrimitiveDom(Lookup(row, columns[i])))
  {
    if columns == [] then [] else
      [Element("td", PrimitiveDom(Lookup(row, columns[0])))] + CellsDom(row, columns[1..])
  }

  function RowsDom(rows: seq<seq<Entry>>, columns: seq<string>): (nodes: seq<Node>)
    ensures |nodes| == |rows|
    ensures forall i :: 0 <= i < |rows| ==> nodes[i] == Element("tr", CellsDom(rows[i], columns))
  {
    if rows == [] then [] else [Element("tr", CellsDom(rows[0], columns))] + RowsDom(rows[1..], columns)
  }

  function TableDom(rows: seq<seq<Entry>>): seq<Node> {
    var columns := Columns(rows, |rows|);
    if columns == [] then DASH_NODE else
      [Element(WRAPPER, [Element(TABLE, [Element("thead", [Element("tr", HeaderDom(columns))])]
        + [Element("tbody", RowsDom(rows, columns))])])]
  }

  function TextsDom(items: seq<Value>): seq<Node>
    requires AllText(items)
  {
    if items == [] then [] else
      assert items[0].Text?;
      [Element("li", Plain(items[0].text))] + TextsDom(items[1..])
  }

  function Dom(v: Value): seq<Node>
    decreases v, 0
  {
    match v
    case Array(items) =>
      if items == [] then DASH_NODE
      else if AllText(items) then [Element(LIST, TextsDom(items))]
      else if AllFlat(items) then TableDom(RowsOf(items))
      else [Element(LIST, ItemsDom(items))]
    case Object(entries) =>
      if entries == [] then DASH_NODE else [Element(NESTED, EntriesDom(entries))]
    case _ => PrimitiveDom(Some(v))
  }

  function ItemsDom(items: seq<Value>): seq<Node>
    decreases items, 1
  {
    if items == [] then [] else [Element("li", Dom(items[0]))] + ItemsDom(items[1..])
  }

  function EntriesDom(entries: seq<Entry>): seq<Node>
    decreases entries, 1
  {
    if entries == [] then [] else
      [Element(ROW, [Element(KEY, Plain(entries[0].key))] + [Element(CELL, Dom(entries[0].value))])]
        + EntriesDom(entries[1..])
  }

  // ---------- Reading what was written ----------

  /** Text that cannot run on from text before it. */
  predicate Apart(html: string) {
    html == "" || html[0] == '<'
  }

  /** `html` is read as `nodes`, wherever it stands. */
  ghost predicate Reads(html: string, nodes: seq<Node>) {
    forall rest, stack {:trigger Read(html + rest, stack)} ::
      Apart(rest) ==> Read(html + rest, stack) == Read(rest, Append(stack, nodes))
  }

  /** `close` closes what `open` opens. */
  predicate IsElement(open: string, close: string) {
    open != "" && open[0] != '/' && '>' !in open && '>' !in close && NameOf(open) == close
  }

  lemma {:induction false} NameStops(name: string, rest: string)
    requires ' ' !in name && (rest == "" || rest[0] == ' ')
    ensures NameOf(name + rest) == name
  {
    if name == "" {
      assert name + rest == rest;
    } else {
      NameStops(name[1..], rest);
      assert (name + rest)[1..] == name[1..] + rest;
    }
  }

  predicate IsName(name: string) {
    name != "" && name[0] != '/' && '>' !in name && ' ' !in name
  }

  lemma {:induction false} PlainElement(name: string)
    requires IsName(name)
    ensures IsElement(name, name)
  {
    NameStops(name, "");
    assert name + "" == name;
  }

  lemma {:induction false} TagElement(name: string, classes: string)
    requires IsName(name) && '>' !in classes
    ensures IsElement(Tag(name, classes), name)
  {
    NameStops(name, " class=\"" + (classes + "\""));
  }

  lemma {:induction false} BlockElement(name: string, suffix: string)
    requires IsName(name) && '>' !in suffix
    ensures IsElement(Tag(name, BLOCK + suffix), name)
  {
    assert '>' !in BLOCK;
    hide BLOCK;
    TagElement(name, BLOCK + suffix);
  }

  lemma {:induction false} RowElements()
    ensures IsElement(NESTED, "div") && IsElement(ROW, "div") && IsElement(KEY, "div") && IsElement(CELL, "div")
  {
    hide BLOCK, IsElement, Tag;
    BlockElement("div", "nested");
    BlockElement("div", "nested-row");
    BlockElement("div", "nested-key");
    BlockElement("div", "nested-value");
  }

  lemma {:induction false} TableElements()
    ensures IsElement(EM, "em") && IsElement(WRAPPER, "div") && IsElement(TABLE, "table") && IsElement(LIST, "ul")
    ensures IsElement("thead", "thead") && IsElement("tbody", "tbody") && IsElement("li", "li")
    ensures IsElement("tr", "tr") && IsElement("th", "th") && IsElement("td", "td")
  {
    hide BLOCK, IsElement, Tag;
    TagElement("em", "text-muted");
    BlockElement("div", "table-wrapper");
    BlockElement("ul", "list");
    TableElement();
    PlainElement("thead");
    PlainElement("tbody");
    PlainElement("li");
    PlainElement("tr");
    PlainElement("th");
    PlainElement("td");
  }

  lemma {:induction false} TableElement()
    ensures IsElement(TABLE, "table")
  {
    var names := BLOCK + "table";
    assert '>' !in BLOCK && '>' !in names;
    hide BLOCK, IsElement, Tag;
    assert '>' !in "table table-striped table-sm ";
    TagElement("table", "table table-striped table-sm " + names);
  }

  lemma {:induction false} FindSkips(before: string, c: char, rest: string, i: nat)
    requires i <= |before| && c !in before
    requires rest == "" || rest[0] == c
    ensures Find(before + rest, c, i) == |before|
  {
    var html := before + rest;
    var k := Find(html, c, i);
    assert forall j :: 0 <= j < |before| ==> html[j] == before[j] && before[j] != c;
    if rest != "" {
      assert html[|before|] == c;
    }
  }

  lemma {:induction false} ReadsOneTag(tag: string, rest: string, stack: Open)
    requires tag != "" && '>' !in tag
    ensures Read("<" + tag + ">" + rest, stack) ==
      match ReadTag(tag, stack) { case Some(next) => Read(rest, next) case None => None }
  {
    var html := "<" + tag + ">" + rest;
    FindSkips("<" + tag, '>', ">" + rest, 1);
    assert html == ("<" + tag) + (">" + rest);
    assert html[1..1 + |tag|] == tag && html[|tag| + 2..] == rest;
  }

  lemma {:induction false} EnclosedThen(tag: string, inner: string, close: string, rest: string)
    ensures Enclose(tag, inner, close) + rest == "<" + tag + ">" + (inner + ("<" + ("/" + close) + ">" + rest))
  {
    var end := "</" + close + ">";
    assert end == "<" + ("/" + close) + ">";
    Assoc("<" + tag + ">", inner + end, rest);
    Assoc(inner, end, rest);
  }

  lemma {:induction false} ReadsWrapped(tag: string, close: string, inner: string, nodes: seq<Node>)
    requires IsElement(tag, close) && Reads(inner, nodes)
    ensures Reads(Enclose(tag, inner, close), [Element(tag, nodes)])
  {
    var slashed := "/" + close;
    forall rest, stack | Apart(rest)
      ensures Read(Enclose(tag, inner, close) + rest, stack) == Read(rest, Append(stack, [Element(tag, nodes)]))
    {
      var after := "<" + slashed + ">" + rest;
      EnclosedThen(tag, inner, close, rest);
      ReadsOneTag(tag, inner + after, stack);
      assert Read(inner + after, Inside(tag, [], stack)) == Read(after, Inside(tag, nodes, stack)) by {
        assert [] + nodes == nodes;
      }
      assert slashed[1..] == close;
      ReadsOneTag(slashed, rest, Inside(tag, nodes, stack));
    }
  }

  lemma {:induction false} ReadsNothing()
    ensures Reads("", [])
  {
    forall rest, stack ensures Read("" + rest, stack) == Read(rest, Append(stack, [])) {
      assert "" + rest == rest && stack.nodes + [] == stack.nodes;
    }
  }

  lemma {:induction false} ReadsBoth(a: string, aNodes: seq<Node>, b: string, bNodes: seq<Node>)
    requires Reads(a, aNodes) && Reads(b, bNodes) && Apart(b)
    ensures Reads(a + b, aNodes + bNodes)
  {
    forall rest, stack | Apart(rest)
      ensures Read(a + b + rest, stack) == Read(rest, Append(stack, aNodes + bNodes))
    {
      Assoc(a, b, rest);
      assert Apart(b + rest);
      assert Read(a + (b + rest), stack) == Read(b + rest, Append(stack, aNodes));
      assert Read(b + rest, Append(stack, aNodes)) == Read(rest, Append(Append(stack, aNodes), bNodes));
      Assoc(stack.nodes, aNodes, bNodes);
    }
  }

  /** A chain of elements: one more in front. */
  lemma {:induction false} ReadsNext(tag: string, close: string, inner: string, nodes: seq<Node>,
      b: string, bNodes: seq<Node>)
    requires IsElement(tag, close) && Reads(inner, nodes) && Reads(b, bNodes) && Apart(b)
    ensures Reads(Enclose(tag, inner, close) + b, [Element(tag, nodes)] + bNodes)
  {
    ReadsWrapped(tag, close, inner, nodes);
    ReadsBoth(Enclose(tag, inner, close), [Element(tag, nodes)], b, bNodes);
  }

  lemma {:induction false} NoBracket(s: string)
    ensures '<' !in Escape(s)
    ensures s != "" ==> Escape(s) != ""
  {
    FivePassesAreOne(s);
    forall i | 0 <= i < |Escape(s)| ensures Escape(s)[i] != '<' {
      EscapedIsClean(s, i);
    }
  }

  lemma {:induction false} ReadsText(s: string)
    ensures Reads(Escape(s), Plain(s))
  {
    if s == "" {
      ReadsNothing();
    } else {
      NoBracket(s);
      UnescapeEscape(s);
      forall rest, stack | Apart(rest) ensures Read(Escape(s) + rest, stack) == Read(rest, Append(stack, Plain(s))) {
        var html := Escape(s) + rest;
        FindSkips(Escape(s), '<', rest, 1);
        assert html[..|Escape(s)|] == Escape(s) && html[|Escape(s)|..] == rest;
        assert html[0] == Escape(s)[0];
      }
    }
  }

  lemma {:induction false} DashIsPlain()
    ensures Escape(DASH) == DASH && Plain(DASH) == [TextNode(DASH)]
  {
    FivePassesAreOne(DASH);
    assert DASH[1..] == "";
    assert EscapeEach(DASH) == [DASH[0]] + EscapeEach("") == DASH;
  }

  lemma {:induction false} ReadsDash()
    ensures Reads(Enclose(EM, DASH, "em"), DASH_NODE)
  {
    hide EM, DASH, Reads, Escape, IsElement;
    ReadsText(DASH);
    DashIsPlain();
    TableElements();
    ReadsWrapped(EM, "em", DASH, [TextNode(DASH)]);
  }

  lemma {:induction false} ReadsPrimitive(v: Option<Value>)
    ensures Reads(RenderPrimitive(v), PrimitiveDom(v))
  {
    ReadsDash();
    ReadsText(PrimitiveText(v));
  }

  lemma {:induction false} ReadsHeader(columns: seq<string>)
    ensures Reads(RenderHeader(columns), HeaderDom(columns)) && Apart(RenderHeader(columns))
  {
    TableElements();
    if columns == [] {
      ReadsNothing();
    } else {
      ReadsHeader(columns[1..]);
      ReadsText(columns[0]);
      ReadsNext("th", "th", Escape(columns[0]), Plain(columns[0]), RenderHeader(columns[1..]), HeaderDom(columns[1..]));
    }
  }

  lemma {:induction false} ReadsCells(row: seq<Entry>, columns: seq<string>)
    ensures Reads(RenderCells(row, columns), CellsDom(row, columns)) && Apart(RenderCells(row, columns))
  {
    TableElements();
    if columns == [] {
      ReadsNothing();
    } else {
      var value := Lookup(row, columns[0]);
      ReadsCells(row, columns[1..]);
      ReadsPrimitive(value);
      ReadsNext("td", "td", RenderPrimitive(value), PrimitiveDom(value), RenderCells(row, columns[1..]),
                CellsDom(row, columns[1..]));
    }
  }

  lemma {:induction false} ReadsRows(rows: seq<seq<Entry>>, columns: seq<string>)
    ensures Reads(RenderRows(rows, columns), RowsDom(rows, columns)) && Apart(RenderRows(rows, columns))
  {
    TableElements();
    if rows == [] {
      ReadsNothing();
    } else {
      ReadsRows(rows[1..], columns);
      ReadsCells(rows[0], columns);
      ReadsNext("tr", "tr", RenderCells(rows[0], columns), CellsDom(rows[0], columns), RenderRows(rows[1..], columns),
                RowsDom(rows[1..], columns));
    }
  }

  lemma {:induction false} ReadsTable(rows: seq<seq<Entry>>)
    ensures Reads(RenderTable(rows), TableDom(rows))
  {
    hide EM, WRAPPER, TABLE;
    TableElements();
    var columns := Columns(rows, |rows|);
    if columns == [] {
      ReadsDash();
    } else {
      ReadsHeader(columns);
      var header := [Element("tr", HeaderDom(columns))];
      ReadsWrapped("tr", "tr", RenderHeader(columns), HeaderDom(columns));
      var body := [Element("tbody", RowsDom(rows, columns))];
      var bodyHtml := Enclose("tbody", RenderRows(rows, columns), "tbody");
      ReadsRows(rows, columns);
      ReadsWrapped("tbody", "tbody", RenderRows(rows, columns), RowsDom(rows, columns));
      ReadsNext("thead", "thead", Enclose("tr", RenderHeader(columns), "tr"), header, bodyHtml, body);
      var table := [Element("thead", header)] + body;
      var tableHtml := Enclose("thead", Enclose("tr", RenderHeader(columns), "tr"), "thead") + bodyHtml;
      ReadsWrapped(TABLE, "table", tableHtml, table);
      ReadsWrapped(WRAPPER, "div", Enclose(TABLE, tableHtml, "table"), [Element(TABLE, table)]);
    }
  }

  lemma {:induction false} ReadsTexts(items: seq<Value>)
    requires AllText(items)
    ensures Reads(RenderTexts(items), TextsDom(items)) && Apart(RenderTexts(items))
  {
    TableElements();
    if items == [] {
      ReadsNothing();
    } else {
      assert items[0].Text?;
      var text := items[0].text;
      ReadsTexts(items[1..]);
      ReadsText(text);
      ReadsNext("li", "li", Escape(text), Plain(text), RenderTexts(items[1..]), TextsDom(items[1..]));
    }
  }

  lemma {:induction false} ReadsValue(v: Value)
    ensures Reads(Render(v), Dom(v))
    decreases v, 0
  {
    hide EM, LIST, NESTED;
    RowElements();
    TableElements();
    ReadsDash();
    match v
    case Array(items) =>
      if items == [] {
      } else if AllText(items) {
        ReadsTexts(items);
        ReadsWrapped(LIST, "ul", RenderTexts(items), TextsDom(items));
      } else if AllFlat(items) {
        ReadsTable(RowsOf(items));
      } else {
        ReadsItems(items);
        ReadsWrapped(LIST, "ul", RenderItems(items), ItemsDom(items));
      }
    case Object(entries) =>
      if entries != [] {
        ReadsEntries(entries);
        ReadsWrapped(NESTED, "div", RenderEntries(entries), EntriesDom(entries));
      }
    case _ =>
      ReadsPrimitive(Some(v));
  }

  lemma {:induction false} ReadsItems(items: seq<Value>)
    ensures Reads(RenderItems(items), ItemsDom(items)) && Apart(RenderItems(items))
    decreases items, 1
  {
    TableElements();
    if items == [] {
      ReadsNothing();
    } else {
      ReadsValue(items[0]);
      ReadsItems(items[1..]);
      ReadsNext("li", "li", Render(items[0]), Dom(items[0]), RenderItems(items[1..]), ItemsDom(items[1..]));
    }
  }

  lemma {:induction false} ReadsEntries(entries: seq<Entry>)
    ensures Reads(RenderEntries(entries), EntriesDom(entries)) && Apart(RenderEntries(entries))
    decreases entries, 1
  {
    hide ROW, KEY, CELL;
    RowElements();
    if entries == [] {
      ReadsNothing();
    } else {
      var key, value := entries[0].key, entries[0].value;
      ReadsValue(value);
      ReadsEntries(entries[1..]);
      ReadsEntry(key, value);
      ReadsNext(ROW, "div", Enclose(KEY, Escape(key), "div") + Enclose(CELL, Render(value), "div"),
                [Element(KEY, Plain(key))] + [Element(CELL, Dom(value))],
                RenderEntries(entries[1..]), EntriesDom(entries[1..]));
    }
  }

  lemma {:induction false} ReadsEntry(key: string, value: Value)
    requires Reads(Render(value), Dom(value))
    ensures Reads(Enclose(KEY, Escape(key), "div") + Enclose(CELL, Render(value), "div"),
      [Element(KEY, Plain(key))] + [Element(CELL, Dom(value))])
  {
    hide KEY, CELL;
    RowElements();
    ReadsText(key);
    ReadsWrapped(CELL, "div", Render(value), Dom(value));
    ReadsNext(KEY, "div", Escape(key), Plain(key), Enclose(CELL, Render(value), "div"), [Element(CELL, Dom(value))]);
  }

  /** Every rendering is properly nested, and reads as the tree that is meant. */
  lemma {:induction false} RenderedParses(v: Value)
    ensures Parse(Render(v)) == Some(Dom(v))
  {
    ReadsValue(v);
    assert Render(v) + "" == Render(v) && [] + Dom(v) == Dom(v);
    assert Read(Render(v) + "", Bottom([])) == Read("", Append(Bottom([]), Dom(v)));
  }

  // ---------- Tables ----------

  lemma {:induction false} LookupFindsFirst(entries: seq<Entry>, i: nat)
    requires i < |entries|
    requires forall j :: 0 <= j < i ==> entries[j].key != entries[i].key
    ensures Lookup(entries, entries[i].key) == Some(entries[i].value)
  {
    if i > 0 {
      assert entries[0].key != entries[i].key;
      LookupFindsFirst(entries[1..], i - 1);
    }
  }

  lemma {:induction false} LookupMisses(entries: seq<Entry>, key: string)
    requires !HasKey(entries, |entries|, key)
    ensures Lookup(entries, key) == None
  {
    if entries != [] {
      assert entries[0].key != key;
      forall i | 0 <= i < |entries| - 1 ensures entries[1..][i].key != key {
        assert entries[1..][i] == entries[i + 1];
      }
      LookupMisses(entries[1..], key);
    }
  }

  /** A header cell per column, and rows with a cell per column: the row's own value there, a dash without one. */
  ghost predicate IsTable(nodes: seq<Node>, columns: seq<string>, header: seq<Node>, body: seq<Node>,
      rows: seq<seq<Entry>>)
  {
    && nodes == [Element(WRAPPER, [Element(TABLE, [Element("thead", [Element("tr", header)])]
                                                  + [Element("tbody", body)])])]
    && |header| == |columns|
    && (forall c :: 0 <= c < |columns| ==> header[c] == Element("th", Plain(columns[c])))
    && |body| == |rows|
    && (forall r :: 0 <= r < |rows| ==> IsRow(body[r], columns, rows[r]))
  }

  ghost predicate IsRow(node: Node, columns: seq<string>, row: seq<Entry>) {
    && node.Element? && node.tag == "tr" && |node.children| == |columns|
    && (forall c :: 0 <= c < |columns| && !HasKey(row, |row|, columns[c])
                    ==> node.children[c] == Element("td", DASH_NODE))
    && (forall c, i :: 0 <= c < |columns| && IsFirst(row, i, columns[c])
                       ==> node.children[c] == Element("td", PrimitiveDom(Some(row[i].value))))
  }

  predicate IsFirst(row: seq<Entry>, i: int, key: string) {
    0 <= i < |row| && row[i].key == key && forall j :: 0 <= j < i ==> row[j].key != key
  }

  lemma {:induction false} CellsAreRow(row: seq<Entry>, columns: seq<string>)
    ensures IsRow(Element("tr", CellsDom(row, columns)), columns, row)
  {
    forall c | 0 <= c < |columns| && !HasKey(row, |row|, columns[c]) ensures Lookup(row, columns[c]) == None {
      LookupMisses(row, columns[c]);
    }
    forall c, i | 0 <= c < |columns| && IsFirst(row, i, columns[c])
      ensures Lookup(row, columns[c]) == Some(row[i].value)
    {
      LookupFindsFirst(row, i);
    }
  }

  lemma {:induction false} TableDomIsTable(rows: seq<seq<Entry>>)
    requires Columns(rows, |rows|) != []
    ensures IsTable(TableDom(rows), Columns(rows, |rows|), HeaderDom(Columns(rows, |rows|)),
      RowsDom(rows, Columns(rows, |rows|)), rows)
  {
    hide WRAPPER, TABLE, IsRow, Columns;
    var columns := Columns(rows, |rows|);
    forall r | 0 <= r < |rows| ensures IsRow(RowsDom(rows, columns)[r], columns, rows[r]) {
      CellsAreRow(rows[r], columns);
    }
  }

  /** A list of flat objects, not all empty, is read back as a full table over the union of their keys. */
  lemma {:induction false} RenderedTable(items: seq<Value>, r: nat)
    requires AllFlat(items) && r < |items| && items[r].entries != []
    ensures var columns := Columns(RowsOf(items), |items|);
      && NoRepeats(columns) && (forall key :: key in columns <==> SomeRowHas(RowsOf(items), |items|, key))
      && exists nodes, header, body ::
           Parse(Render(Array(items))) == Some(nodes) && IsTable(nodes, columns, header, body, RowsOf(items))
  {
    hide IsTable, Parse, Columns, RenderTable;
    var rows := RowsOf(items);
    var columns := Columns(rows, |rows|);
    ColumnsAreTheUnion(rows, |rows|);
    assert HasKey(rows[r], |rows[r]|, rows[r][0].key);
    assert SomeRowHas(rows, |rows|, rows[r][0].key);
    TableDomIsTable(rows);
    RenderedParses(Array(items));
    assert IsFlatObject(items[r]) && !items[r].Text?;
  }

  // ---------- What is shown ----------

  /** The texts of a tree in document order. */
  function NodeTexts(node: Node): seq<string>
    decreases node, 0
  {
    match node
    case TextNode(text) => [text]
    case Element(_, children) => Texts(children)
  }

  function Texts(nodes: seq<Node>): seq<string>
    decreases nodes, 1
  {
    if nodes == [] then [] else NodeTexts(nodes[0]) + Texts(nodes[1..])
  }

  function NonEmpty(text: string): seq<string> {
    if text == "" then [] else [text]
  }

  function NonEmpties(texts: seq<string>): seq<string> {
    if texts == [] then [] else NonEmpty(texts[0]) + NonEmpties(texts[1..])
  }

  /** A leaf, shown as a dash when it has no text. */
  function Leaf(v: Option<Value>): string {
    if PrimitiveText(v) == "" then DASH else PrimitiveText(v)
  }

  function RowLeaves(row: seq<Entry>, columns: seq<string>): seq<string> {
    if columns == [] then [] else [Leaf(Lookup(row, columns[0]))] + RowLeaves(row, columns[1..])
  }

  function TableLeaves(rows: seq<seq<Entry>>, columns: seq<string>): seq<string> {
    if rows == [] then [] else RowLeaves(rows[0], columns) + TableLeaves(rows[1..], columns)
  }

  function StringsOf(items: seq<Value>): seq<string>
    requires AllText(items)
  {
    if items == [] then [] else
      assert items[0].Text?;
      [items[0].text] + StringsOf(items[1..])
  }

  /** The keys and leaves of a value in traversal order; a table has its column names first. */
  function Shown(v: Value): seq<string>
    decreases v, 0
  {
    match v
    case Array(items) =>
      if items == [] then [DASH]
      else if AllText(items) then NonEmpties(StringsOf(items))
      else if AllFlat(items) then
        var columns := Columns(RowsOf(items), |items|);
        if columns == [] then [DASH] else NonEmpties(columns) + TableLeaves(RowsOf(items), columns)
      else ShownItems(items)
    case Object(entries) => if entries == [] then [DASH] else ShownEntries(entries)
    case _ => [Leaf(Some(v))]
  }

  function ShownItems(items: seq<Value>): seq<string>
    decreases items, 1
  {
    if items == [] then [] else Shown(items[0]) + ShownItems(items[1..])
  }

  function ShownEntries(entries: seq<Entry>): seq<string>
    decreases entries, 1
  {
    if entries == [] then [] else
      NonEmpty(entries[0].key) + (Shown(entries[0].value) + ShownEntries(entries[1..]))
  }

  lemma {:induction false} TextsOne(node: Node)
    ensures Texts([node]) == NodeTexts(node)
  {
    assert [node][1..] == [] && Texts([]) == [];
  }

  lemma {:induction false} TextsNext(node: Node, nodes: seq<Node>)
    ensures Texts([node] + nodes) == NodeTexts(node) + Texts(nodes)
  {
    assert ([node] + nodes)[1..] == nodes;
  }

  lemma {:induction false} TextsPlain(text: string)
    ensures Texts(Plain(text)) == NonEmpty(text)
  {
    if text != "" {
      TextsOne(TextNode(text));
    }
  }

  lemma {:induction false} TextsLeaf(v: Option<Value>)
    ensures Texts(PrimitiveDom(v)) == [Leaf(v)]
  {
    TextsOne(TextNode(Leaf(v)));
    TextsOne(Element(EM, [TextNode(DASH)]));
  }

  lemma {:induction false} TextsHeader(columns: seq<string>)
    ensures Texts(HeaderDom(columns)) == NonEmpties(columns)
  {
    if columns != [] {
      TextsHeader(columns[1..]);
      TextsPlain(columns[0]);
      TextsNext(Element("th", Plain(columns[0])), HeaderDom(columns[1..]));
    }
  }

  lemma {:induction false} TextsCells(row: seq<Entry>, columns: seq<string>)
    ensures Texts(CellsDom(row, columns)) == RowLeaves(row, columns)
  {
    if columns != [] {
      TextsCells(row, columns[1..]);
      TextsLeaf(Lookup(row, columns[0]));
      TextsNext(Element("td", PrimitiveDom(Lookup(row, columns[0]))), CellsDom(row, columns[1..]));
    }
  }

  lemma {:induction false} TextsRows(rows: seq<seq<Entry>>, columns: seq<string>)
    ensures Texts(RowsDom(rows, columns)) == TableLeaves(rows, columns)
  {
    if rows != [] {
      TextsRows(rows[1..], columns);
      TextsCells(rows[0], columns);
      TextsNext(Element("tr", CellsDom(rows[0], columns)), RowsDom(rows[1..], columns));
    }
  }

  lemma {:induction false} TextsTable(rows: seq<seq<Entry>>)
    ensures Texts(TableDom(rows)) ==
      var columns := Columns(rows, |rows|);
      if columns == [] then [DASH] else NonEmpties(columns) + TableLeaves(rows, columns)
  {
    hide EM, TABLE, WRAPPER, Columns;
    var columns := Columns(rows, |rows|);
    if columns == [] {
      TextsLeaf(None);
    } else {
      var head, body := Element("thead", [Element("tr", HeaderDom(columns))]), Element("tbody", RowsDom(rows, columns));
      TextsHeader(columns);
      TextsRows(rows, columns);
      TextsOne(Element("tr", HeaderDom(columns)));
      TextsOne(body);
      TextsNext(head, [body]);
      TextsOne(Element(TABLE, [head] + [body]));
      TextsOne(Element(WRAPPER, [Element(TABLE, [head] + [body])]));
    }
  }

  lemma {:induction false} TextsStrings(items: seq<Value>)
    requires AllText(items)
    ensures Texts(TextsDom(items)) == NonEmpties(StringsOf(items))
  {
    if items != [] {
      assert items[0].Text?;
      TextsStrings(items[1..]);
      TextsPlain(items[0].text);
      TextsNext(Element("li", Plain(items[0].text)), TextsDom(items[1..]));
    }
  }

  lemma {:induction false} TextsValue(v: Value)
    ensures Texts(Dom(v)) == Shown(v)
    decreases v, 0
  {
    hide EM, LIST, NESTED, Columns;
    TextsLeaf(None);
    match v
    case Array(items) =>
      if items == [] {
      } else if AllText(items) {
        TextsStrings(items);
        TextsOne(Element(LIST, TextsDom(items)));
      } else if AllFlat(items) {
        TextsTable(RowsOf(items));
      } else {
        TextsItems(items);
        TextsOne(Element(LIST, ItemsDom(items)));
      }
    case Object(entries) =>
      if entries != [] {
        TextsEntries(entries);
        TextsOne(Element(NESTED, EntriesDom(entries)));
      }
    case _ =>
      TextsLeaf(Some(v));
  }

  lemma {:induction false} TextsItems(items: seq<Value>)
    ensures Texts(ItemsDom(items)) == ShownItems(items)
    decreases items, 1
  {
    if items != [] {
      TextsValue(items[0]);
      TextsItems(items[1..]);
      TextsNext(Element("li", Dom(items[0])), ItemsDom(items[1..]));
    }
  }

  lemma {:induction false} TextsEntries(entries: seq<Entry>)
    ensures Texts(EntriesDom(entries)) == ShownEntries(entries)
    decreases entries, 1
  {
    hide ROW, KEY, CELL;
    if entries != [] {
      var key, value := entries[0].key, entries[0].value;
      TextsValue(value);
      TextsEntries(entries[1..]);
      TextsPlain(key);
      TextsOne(Element(CELL, Dom(value)));
      TextsNext(Element(KEY, Plain(key)), [Element(CELL, Dom(value))]);
      TextsNext(Element(ROW, [Element(KEY, Plain(key))] + [Element(CELL, Dom(value))]), EntriesDom(entries[1..]));
      Assoc(NonEmpty(key), Shown(value), ShownEntries(entries[1..]));
    }
  }

  /** Stripping the tags and unescaping gives back every key and leaf, in traversal order. */
  lemma {:induction false} RenderedShowsAll(v: Value)
    ensures Parse(Render(v)).Some? && Texts(Parse(Render(v)).value) == Shown(v)
  {
    RenderedParses(v);
    TextsValue(v);
  }
}
