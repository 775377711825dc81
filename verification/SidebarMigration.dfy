/**
 The migration that gives every branding row an admin sidebar text colour. It writes row by row and may
 be stopped and started again at any time, so each step must leave a row that a later run recognises
 as done, and must keep whatever else the row holds.
 */
module SidebarMigration {
  import opened Wrappers
  import opened JsText

  datatype Value = Text(s: string) | Other

  datatype Entry = Entry(key: string, value: Value)

  /** A row's variables, in the object's own order; they may be missing, or null. */
  datatype Row = Row(id: int, variables: Option<seq<Entry>>)

  const LEGACY_DEFAULT := "#b1101a"
  const SIDEBAR := "admin-sidebar-text-"
  const PANEL := "panel-branding-background-"
  const SIDEBAR_KEY := SIDEBAR + "color"
  const PANEL_KEY := PANEL + "color"

  // ---------- Keys ----------

  predicate EndsWith(s: string, end: string) {
    |end| <= |s| && s[|s| - |end|..] == end
  }

  /** `key.replace(/^\$/, '').replace(/colour$/, 'color')`. */
  function NormalizeKey(key: string): string {
    var plain := if key != "" && key[0] == '$' then key[1..] else key;
    if EndsWith(plain, "colour") then plain[..|plain| - 6] + "color" else plain
  }

  /** A colour key has four spellings: with or without the dollar sign, British or American. */
  lemma {:induction false} FourSpellings(base: string, key: string)
    requires base != "" && base[0] != '$'
    ensures NormalizeKey(key) == base + "color" <==>
      key in [base + "color", base + "colour", "$" + (base + "color"), "$" + (base + "colour")]
  {
    var plain := if key != "" && key[0] == '$' then key[1..] else key;
    OneSpelling(base, plain);
    if key != "" && key[0] == '$' {
      assert key == "$" + plain;
      assert (base + "color")[0] != '$' && (base + "colour")[0] != '$';
      assert forall s: string :: ("$" + s)[1..] == s;
    } else {
      assert forall s: string :: ("$" + s)[0] == '$';
    }
  }

  lemma {:induction false} OneSpelling(base: string, plain: string)
    ensures (if EndsWith(plain, "colour") then plain[..|plain| - 6] + "color" else plain) == base + "color"
      <==> plain == base + "color" || plain == base + "colour"
  {
    EndsExactly(base);
    if EndsWith(plain, "colour") {
      var n := |plain| - 6;
      assert plain == plain[..n] + "colour";
      assert (plain[..n] + "color")[..n] == plain[..n];
      assert (base + "color")[..|base|] == base;
      assert (base + "colour")[..|base|] == base;
    }
  }

  lemma {:induction false} EndsExactly(base: string)
    ensures !EndsWith(base + "color", "colour") && EndsWith(base + "colour", "colour")
  {
    var s := base + "color";
    assert "colour"[4] == 'u' && s[|s| - 2] == 'o';
    assert |s| >= 6 ==> s[|s| - 6..][4] == s[|s| - 2];
    assert (base + "colour")[|base|..] == "colour";
  }

  // ---------- Colours ----------

  function TrimEnd(s: string): string {
    if s != "" && IsSpace(s[|s| - 1]) then TrimEnd(s[..|s| - 1]) else s
  }

  function Trim(s: string): string {
    TrimEnd(s[SkipSpace(s, 0)..])
  }

  predicate IsLowerHex(c: char) {
    '0' <= c <= '9' || 'a' <= c <= 'f'
  }

  predicate AllLowerHex(s: string) {
    forall i :: 0 <= i < |s| ==> IsLowerHex(s[i])
  }

  function Double(s: string): (doubled: string)
    ensures |doubled| == 2 * |s|
  {
    if s == "" then "" else [s[0], s[0]] + Double(s[1..])
  }

  /** Three or six hex digits after `#`, in any case, as six in lower case. */
  function ReadColor(text: string): Option<string> {
    var t := Trim(text);
    if (|t| == 4 || |t| == 7) && t[0] == '#' && AllLowerHex(Lower(t[1..])) then
      Some("#" + if |t| == 4 then Double(Lower(t[1..])) else Lower(t[1..]))
    else None
  }

  predicate IsSixHex(color: string) {
    |color| == 7 && color[0] == '#' && AllLowerHex(color[1..])
  }

  lemma {:induction false} DoubleIsHex(s: string)
    requires AllLowerHex(s)
    ensures AllLowerHex(Double(s))
  {
    if s != "" {
      DoubleIsHex(s[1..]);
    }
  }

  lemma {:induction false} ReadColorIsSixHex(text: string)
    requires ReadColor(text).Some?
    ensures IsSixHex(ReadColor(text).value)
  {
    var hex := Lower(Trim(text)[1..]);
    DoubleIsHex(hex);
    assert ("#" + hex)[1..] == hex && ("#" + Double(hex))[1..] == Double(hex);
  }

  // ---------- What the text of a colour stands for ----------

  /** Each digit twice, in order. */
  lemma {:induction false} DoubleRepeatsEach(s: string, i: nat)
    requires i < |s|
    ensures Double(s)[2 * i] == s[i] && Double(s)[2 * i + 1] == s[i]
  {
    if i > 0 {
      DoubleRepeatsEach(s[1..], i - 1);
      assert Double(s)[2 * i] == Double(s[1..])[2 * (i - 1)] && Double(s)[2 * i + 1] == Double(s[1..])[2 * (i - 1) + 1];
    }
  }

  predicate IsHex(c: char) {
    '0' <= c <= '9' || 'a' <= c <= 'f' || 'A' <= c <= 'F'
  }

  /** The same digit, in lower case. */
  predicate IsLowerOf(lower: char, c: char) {
    if 'A' <= c <= 'F' then lower as int - 'a' as int == c as int - 'A' as int else lower == c
  }

  lemma {:induction false} LowerHex(s: string)
    ensures AllLowerHex(Lower(s)) <==> forall i :: 0 <= i < |s| ==> IsHex(s[i])
    ensures forall i :: 0 <= i < |s| && IsHex(s[i]) ==> IsLowerOf(Lower(s)[i], s[i])
  {
    if AllLowerHex(Lower(s)) {
      forall i | 0 <= i < |s| ensures IsHex(s[i]) {
        assert IsLowerHex(Lower(s)[i]);
      }
    }
  }

  /** A colour is `#` and three or six hex digits in either case; it is read in lower case, three digits doubled. */
  lemma {:induction false} ReadColorExactly(text: string)
    ensures var t := Trim(text);
      && (ReadColor(text).Some? <==>
            (|t| == 4 || |t| == 7) && t[0] == '#' && forall i :: 1 <= i < |t| ==> IsHex(t[i]))
      && (ReadColor(text).Some? ==>
            && |ReadColor(text).value| == 7 && ReadColor(text).value[0] == '#'
            && forall i :: 1 <= i < 7 ==>
                 IsLowerOf(ReadColor(text).value[i], t[if |t| == 7 then i else (i + 1) / 2]))
  {
    var t := Trim(text);
    if (|t| == 4 || |t| == 7) && t[0] == '#' {
      var digits := t[1..];
      LowerHex(digits);
      assert forall i :: 1 <= i < |t| ==> t[i] == digits[i - 1];
      if ReadColor(text).Some? && |t| == 4 {
        DoubleRepeatsEach(Lower(digits), 0);
        DoubleRepeatsEach(Lower(digits), 1);
        DoubleRepeatsEach(Lower(digits), 2);
      }
    }
  }

  /** `t` is `s` without white space at its end. */
  ghost predicate EndsCut(s: string, t: string) {
    && |t| <= |s| && t == s[..|t|] && (forall i :: |t| <= i < |s| ==> IsSpace(s[i]))
    && (t != "" ==> !IsSpace(t[|t| - 1]))
  }

  lemma {:induction false} TrimEndExactly(s: string)
    ensures EndsCut(s, TrimEnd(s))
  {
    if s != "" && IsSpace(s[|s| - 1]) {
      var init := s[..|s| - 1];
      TrimEndExactly(init);
      assert forall i :: 0 <= i < |init| ==> init[i] == s[i];
    }
  }

  lemma {:induction false} SkipExactly(s: string, p: nat)
    requires p <= |s|
    ensures forall i :: p <= i < SkipSpace(s, p) ==> IsSpace(s[i])
    ensures SkipSpace(s, p) < |s| ==> !IsSpace(s[SkipSpace(s, p)])
    decreases |s| - p
  {
    if p < |s| && IsSpace(s[p]) {
      SkipExactly(s, p + 1);
    }
  }

  /** Trimming cuts white space off both ends, all of it and nothing else. */
  lemma {:induction false} TrimExactly(s: string) returns (start: nat)
    ensures start + |Trim(s)| <= |s| && Trim(s) == s[start..start + |Trim(s)|]
    ensures forall i :: 0 <= i < start || start + |Trim(s)| <= i < |s| ==> IsSpace(s[i])
    ensures Trim(s) != "" ==> !IsSpace(Trim(s)[0]) && !IsSpace(Trim(s)[|Trim(s)| - 1])
  {
    hide SkipSpace, TrimEnd, IsSpace;
    start := SkipSpace(s, 0);
    var rest := s[start..];
    SkipExactly(s, 0);
    TrimEndExactly(rest);
    assert forall i :: 0 <= i < |rest| ==> rest[i] == s[start + i];
    forall i | start + |Trim(s)| <= i < |s| ensures IsSpace(s[i]) {
      assert rest[i - start] == s[i];
    }
  }

  /** The colour an entry offers. */
  function Offered(entry: Entry): Option<string> {
    if NormalizeKey(entry.key) != PANEL_KEY || !entry.value.Text? then None else ReadColor(entry.value.s)
  }

  /** The colour after the first `n` entries. */
  function ColorOf(entries: seq<Entry>, n: nat): string
    requires n <= |entries|
  {
    if n == 0 then LEGACY_DEFAULT
    else if Offered(entries[n - 1]).Some? then Offered(entries[n - 1]).value else ColorOf(entries, n - 1)
  }

  /** The last valid panel colour wins, the legacy default stands in for none; it is six lower-case hex digits. */
  lemma {:induction false} LastOfferWins(entries: seq<Entry>, n: nat)
    requires n <= |entries|
    ensures IsSixHex(ColorOf(entries, n))
    ensures (exists i :: 0 <= i < n && Offered(entries[i]) == Some(ColorOf(entries, n))
                         && forall j :: i < j < n ==> Offered(entries[j]) == None)
      || (ColorOf(entries, n) == LEGACY_DEFAULT && forall j :: 0 <= j < n ==> Offered(entries[j]) == None)
  {
    hide NormalizeKey, ReadColor;
    if n == 0 {
      assert LEGACY_DEFAULT[1..] == "b1101a";
    } else if Offered(entries[n - 1]).Some? {
      ReadColorIsSixHex(entries[n - 1].value.s);
    } else {
      LastOfferWins(entries, n - 1);
    }
  }

  // ---------- One row ----------

  predicate HasSidebarKey(entries: seq<Entry>) {
    exists i :: 0 <= i < |entries| && NormalizeKey(entries[i].key) == SIDEBAR_KEY
  }

  function EntriesOf(variables: Option<seq<Entry>>): seq<Entry> {
    if variables.Some? then variables.value else []
  }

  /** The variables to write, or nothing for a row that needs no change. */
  function SidebarVariables(variables: Option<seq<Entry>>): Option<seq<Entry>> {
    var entries := EntriesOf(variables);
    if HasSidebarKey(entries) then None
    else Some(entries + [Entry(SIDEBAR_KEY, Text(ColorOf(entries, |entries|)))])
  }

  method ComputeSidebarVariables(variables: Option<seq<Entry>>) returns (result: Option<seq<Entry>>)
    ensures result == SidebarVariables(variables)
  {
    hide NormalizeKey, ReadColor;
    var entries := if variables.Some? then variables.value else [];
    if HasSidebarKey(entries) {
      return None;
    }
    var color := LEGACY_DEFAULT;
    for i := 0 to |entries|
      invariant color == ColorOf(entries, i)
    {
      if NormalizeKey(entries[i].key) != PANEL_KEY || !entries[i].value.Text? {
        continue;
      }
      var offered := ReadColor(entries[i].value.s);
      if offered.Some? {
        color := offered.value;
      }
    }
    return Some(entries + [Entry(SIDEBAR_KEY, Text(color))]);
  }

  function Migrate(row: Row): Row {
    var variables := SidebarVariables(row.variables);
    if variables.Some? then row.(variables := variables) else row
  }

  lemma {:induction false} SidebarKeyIsNormal()
    ensures NormalizeKey(SIDEBAR_KEY) == SIDEBAR_KEY
  {
    FourSpellings(SIDEBAR, SIDEBAR_KEY);
  }

  /** Every key and value stays, at most one key is added, and the row ends with a sidebar colour. */
  lemma {:induction false} MigrateKeepsEntries(row: Row)
    ensures var before, after := EntriesOf(row.variables), EntriesOf(Migrate(row).variables);
      && HasSidebarKey(after)
      && Migrate(row).id == row.id
      && (HasSidebarKey(before) ==> after == before)
      && (!HasSidebarKey(before) ==>
            |after| == |before| + 1 && after[..|before|] == before && after[|before|].key == SIDEBAR_KEY
            && after[|before|].value.Text? && IsSixHex(after[|before|].value.s))
  {
    var before, after := EntriesOf(row.variables), EntriesOf(Migrate(row).variables);
    SidebarKeyIsNormal();
    hide NormalizeKey, ReadColor, SIDEBAR_KEY;
    LastOfferWins(before, |before|);
    if !HasSidebarKey(before) {
      assert after[|before|].key == SIDEBAR_KEY;
    }
  }

  /** The spellings of a colour key. */
  function Spellings(base: string): seq<string> {
    [base + "color", base + "colour", "$" + (base + "color"), "$" + (base + "colour")]
  }

  /** A row needs no change exactly when it has the key in one of its spellings. */
  lemma {:induction false} NeedsNoChangeExactly(variables: Option<seq<Entry>>)
    ensures SidebarVariables(variables) == None <==>
      variables.Some?
      && exists i :: 0 <= i < |variables.value| && variables.value[i].key in Spellings("admin-sidebar-text-")
  {
    forall key: string ensures NormalizeKey(key) == SIDEBAR_KEY <==> key in Spellings("admin-sidebar-text-") {
      FourSpellings(SIDEBAR, key);
    }
    hide NormalizeKey, ColorOf, Spellings, SIDEBAR_KEY;
  }

  /** An entry offers a colour exactly when it is a panel background, in any spelling, with a text that is a colour. */
  lemma {:induction false} OffersExactly(entry: Entry)
    ensures Offered(entry) ==
      if entry.key in Spellings("panel-branding-background-") && entry.value.Text? then ReadColor(entry.value.s)
      else None
  {
    FourSpellings(PANEL, entry.key);
    hide NormalizeKey, ReadColor;
  }

  /** A migrated row needs no further change. */
  lemma {:induction false} MigrateTwice(row: Row)
    ensures SidebarVariables(Migrate(row).variables) == None
    ensures Migrate(Migrate(row)) == Migrate(row)
  {
    MigrateKeepsEntries(row);
  }

  // ---------- All rows ----------

  function MigrateAll(rows: seq<Row>, n: nat): (migrated: seq<Row>)
    requires n <= |rows|
    ensures |migrated| == |rows|
    ensures forall i :: 0 <= i < |rows| ==> migrated[i] == if i < n then Migrate(rows[i]) else rows[i]
  {
    hide Migrate;
    if n == 0 then rows else MigrateAll(rows, n - 1)[n - 1 := Migrate(rows[n - 1])]
  }

  /** The rows among the first `n` that still need the colour. */
  function Pending(rows: seq<Row>, n: nat): nat
    requires n <= |rows|
  {
    if n == 0 then 0 else Pending(rows, n - 1) + if SidebarVariables(rows[n - 1].variables).Some? then 1 else 0
  }

  /** One collection: each row that needs it is updated in place. */
  method MigrateCollection(rows: array<Row>) returns (updated: nat)
    modifies rows
    ensures rows[..] == MigrateAll(old(rows[..]), rows.Length)
    ensures updated == Pending(old(rows[..]), rows.Length)
  {
    hide SidebarVariables;
    updated := 0;
    for i := 0 to rows.Length
      invariant rows[..] == MigrateAll(old(rows[..]), i)
      invariant updated == Pending(old(rows[..]), i)
    {
      assert rows[i] == rows[..][i] == old(rows[..])[i];
      var variables := ComputeSidebarVariables(rows[i].variables);
      if variables.Some? {
        rows[i] := rows[i].(variables := variables);
        updated := updated + 1;
      }
    }
  }

  method Up(branding: array<Row>, history: array<Row>) returns (updated: nat)
    requires branding != history
    modifies branding, history
    ensures branding[..] == MigrateAll(old(branding[..]), branding.Length)
    ensures history[..] == MigrateAll(old(history[..]), history.Length)
    ensures updated == Pending(old(branding[..]), branding.Length) + Pending(old(history[..]), history.Length)
  {
    var first := MigrateCollection(branding);
    var second := MigrateCollection(history);
    updated := first + second;
  }

  function ChangedRows(rows: seq<Row>, n: nat): set<nat>
    requires n <= |rows|
  {
    set i: nat | i < n && Migrate(rows[i]) != rows[i]
  }

  lemma {:induction false} ChangesExactly(row: Row)
    ensures Migrate(row) != row <==> SidebarVariables(row.variables).Some?
  {
    MigrateTwice(row);
  }

  lemma {:induction false} OneMoreRow(rows: seq<Row>, n: nat)
    requires n < |rows|
    ensures ChangedRows(rows, n + 1) == ChangedRows(rows, n) + if Migrate(rows[n]) != rows[n] then {n} else {}
    ensures n !in ChangedRows(rows, n)
  {
    hide Migrate;
  }

  /** The count is that of the rows that change. */
  lemma {:induction false} PendingAreChanged(rows: seq<Row>, n: nat)
    requires n <= |rows|
    ensures Pending(rows, n) == |ChangedRows(rows, n)|
  {
    hide Migrate, SidebarVariables, ChangedRows;
    if n > 0 {
      PendingAreChanged(rows, n - 1);
      ChangesExactly(rows[n - 1]);
      OneMoreRow(rows, n - 1);
    } else {
      NothingChanged(rows);
    }
  }

  lemma {:induction false} NothingChanged(rows: seq<Row>)
    ensures ChangedRows(rows, 0) == {}
  {
  }

  /** What an interrupted run leaves: some rows migrated, whichever they are, and the rest untouched. */
  ghost predicate Interrupted(rows: seq<Row>, left: seq<Row>) {
    |left| == |rows| && forall i :: 0 <= i < |rows| ==> left[i] == rows[i] || left[i] == Migrate(rows[i])
  }

  /** Rerunning after any interruption ends in the same rows as one full run. */
  lemma {:induction false} RerunCompletes(rows: seq<Row>, left: seq<Row>)
    requires Interrupted(rows, left)
    ensures MigrateAll(left, |left|) == MigrateAll(rows, |rows|)
  {
    hide Migrate;
    forall i | 0 <= i < |rows| ensures Migrate(left[i]) == Migrate(rows[i]) {
      MigrateTwice(rows[i]);
    }
  }

  /** A further run updates no row. */
  lemma {:induction false} FurtherRunIsIdle(rows: seq<Row>, n: nat)
    requires n <= |rows|
    ensures Pending(MigrateAll(rows, |rows|), n) == 0
    ensures MigrateAll(MigrateAll(rows, |rows|), n) == MigrateAll(rows, |rows|)
  {
    hide Migrate, SidebarVariables;
    if n > 0 {
      FurtherRunIsIdle(rows, n - 1);
      MigrateTwice(rows[n - 1]);
    }
  }
}
