/**
 String tokens as RFC 8259, section 7 defines them: the decoder `JSON.parse` applies to the keys the
 scanner cuts out of the text.
 */
module JsonKeys {
  import opened Wrappers
  import opened JsText
  import opened JsonScanner
  import opened JsonLayout

  function HexDigit(c: char): Option<nat> {
    if '0' <= c <= '9' then Some(c as int - '0' as int)
    else if 'a' <= c <= 'f' then Some(c as int - 'a' as int + 10)
    else if 'A' <= c <= 'F' then Some(c as int - 'A' as int + 10)
    else None
  }

  /** The value of four hexadecimal digits. */
  function HexUnit(s: string): Option<nat>
    requires |s| == 4
  {
    var a, b, c, d := HexDigit(s[0]), HexDigit(s[1]), HexDigit(s[2]), HexDigit(s[3]);
    if a.None? || b.None? || c.None? || d.None? then None
    else Some(((a.value * 16 + b.value) * 16 + c.value) * 16 + d.value)
  }

  function EscapedUnit(c: char): Option<nat> {
    if c == '"' || c == '\\' || c == '/' then Some(c as int)
    else if c == 'b' then Some(8)
    else if c == 'f' then Some(12)
    else if c == 'n' then Some(10)
    else if c == 'r' then Some(13)
    else if c == 't' then Some(9)
    else None
  }

  /** The UTF-16 code units of one character. */
  function Units(c: char): Key {
    var n := c as int;
    if n < 0x10000 then [n] else [0xd800 + (n - 0x10000) / 0x400, 0xdc00 + (n - 0x10000) % 0x400]
  }

  function Prefixed(units: Key, rest: Option<Key>): Option<Key> {
    if rest.None? then None else Some(units + rest.value)
  }

  /** One plain character or escape: the code units it stands for, and its length in the text. */
  datatype Unit = Unit(units: Key, length: nat)

  function DecodeUnit(body: string): (unit: Option<Unit>)
    requires body != ""
    ensures unit.Some? ==> 0 < unit.value.length <= |body|
  {
    if body[0] != '\\' then
      if body[0] == '"' || body[0] < ' ' then None else Some(Unit(Units(body[0]), 1))
    else if |body| < 2 then None
    else if body[1] == 'u' then
      if |body| < 6 || HexUnit(body[2..6]).None? then None
      else Some(Unit([HexUnit(body[2..6]).value], 6))
    else if EscapedUnit(body[1]).None? then None
    else Some(Unit([EscapedUnit(body[1]).value], 2))
  }

  /** The contents of a string token, decoded. */
  function DecodeBody(body: string): Option<Key> {
    if body == "" then Some([]) else
      var unit := DecodeUnit(body);
      if unit.None? then None else Prefixed(unit.value.units, DecodeBody(body[unit.value.length..]))
  }

  /** `JSON.parse` of a slice that ends in a quote: it succeeds on string tokens only. */
  function DecodeToken(token: string): Option<Key> {
    if |token| < 2 || token[0] != '"' || token[|token| - 1] != '"' then None
    else DecodeBody(token[1..|token| - 1])
  }

  // ---------- The decoder accepts only string tokens ----------

  lemma {:induction false} HexIsPlain(s: string)
    requires |s| == 4 && HexUnit(s).Some?
    ensures forall i :: 0 <= i < 4 ==> s[i] != '"' && s[i] != '\\'
  {
  }

  lemma {:induction false} PlainSteps(source: string, p: nat, q: nat)
    requires p <= q <= |source| && forall i :: p <= i < q ==> source[i] != '"' && source[i] != '\\'
    ensures StringEnd(source, p) == StringEnd(source, q)
    decreases q - p
  {
    if p < q {
      PlainSteps(source, p + 1, q);
    }
  }

  /** The cursor steps over one unit without stopping inside it. */
  lemma {:induction false} StepsOverUnit(source: string, p: nat)
    requires p < |source| - 1 && DecodeUnit(source[p..|source| - 1]).Some?
    ensures StringEnd(source, p) == StringEnd(source, p + DecodeUnit(source[p..|source| - 1]).value.length)
  {
    var body := source[p..|source| - 1];
    forall i | 0 <= i < |body| ensures source[p + i] == body[i] {
    }
    if DecodeUnit(body).value.length == 6 {
      HexIsPlain(body[2..6]);
      forall i | p + 2 <= i < p + 6 ensures source[i] != '"' && source[i] != '\\' {
        assert source[i] == body[2..6][i - p - 2];
      }
      PlainSteps(source, p + 2, p + 6);
    }
  }

  lemma {:induction false} ReadsBody(token: string, p: nat)
    requires p < |token| && token[|token| - 1] == '"' && DecodeBody(token[p..|token| - 1]).Some?
    ensures StringEnd(token, p) == Some(|token|)
    decreases |token| - p
  {
    var body := token[p..|token| - 1];
    if body != "" {
      var n := DecodeUnit(body).value.length;
      StepsOverUnit(token, p);
      assert body[n..] == token[p + n..|token| - 1];
      ReadsBody(token, p + n);
    }
  }

  lemma {:induction false} DecodesOnlyTokens()
    ensures Lawful(DecodeToken)
  {
    forall token | DecodeToken(token).Some? ensures IsToken(token) {
      ReadsBody(token, 1);
    }
  }

  // ---------- Every key has a token ----------

  function HexChar(n: nat): char
    requires n < 16
  {
    if n < 10 then ('0' as int + n) as char else ('a' as int + n - 10) as char
  }

  lemma {:induction false} HexUnitOf(a: nat, b: nat, c: nat, d: nat)
    requires a < 16 && b < 16 && c < 16 && d < 16
    ensures HexUnit([HexChar(a), HexChar(b), HexChar(c), HexChar(d)]) == Some(((a * 16 + b) * 16 + c) * 16 + d)
  {
    HexCharDigit(a);
    HexCharDigit(b);
    HexCharDigit(c);
    HexCharDigit(d);
  }

  lemma {:induction false} HexDecodes(unit: nat)
    requires unit < 0x10000
    ensures HexUnit(EscapeUnit(unit)[2..6]) == Some(unit)
  {
    var c := unit / 16;
    var b := c / 16;
    var a := b / 16;
    HexUnitOf(a, b % 16, c % 16, unit % 16);
    assert EscapeUnit(unit)[2..6] == [HexChar(a), HexChar(b % 16), HexChar(c % 16), HexChar(unit % 16)];
  }

  /** A code unit as a `\uXXXX` escape. */
  function EscapeUnit(unit: nat): (s: string)
    requires unit < 0x10000
    ensures |s| == 6
  {
    ['\\', 'u', HexChar(unit / 16 / 16 / 16), HexChar(unit / 16 / 16 % 16), HexChar(unit / 16 % 16), HexChar(unit % 16)]
  }

  predicate IsKey(key: Key) {
    forall i :: 0 <= i < |key| ==> key[i] < 0x10000
  }

  function EscapeAll(key: Key): string
    requires IsKey(key)
  {
    if key == [] then "" else EscapeUnit(key[0]) + EscapeAll(key[1..])
  }

  lemma {:induction false} HexCharDigit(n: nat)
    requires n < 16
    ensures HexDigit(HexChar(n)) == Some(n)
  {
  }

  lemma {:induction false} EscapeUnitDecodes(unit: nat, rest: string)
    requires unit < 0x10000
    ensures DecodeUnit(EscapeUnit(unit) + rest) == Some(Unit([unit], 6))
  {
    var s := EscapeUnit(unit) + rest;
    assert s[2..6] == EscapeUnit(unit)[2..6];
    HexDecodes(unit);
  }

  lemma {:induction false} EscapedBodyDecodes(key: Key)
    requires IsKey(key)
    ensures DecodeBody(EscapeAll(key)) == Some(key)
  {
    if key != [] {
      EscapeUnitDecodes(key[0], EscapeAll(key[1..]));
      assert (EscapeUnit(key[0]) + EscapeAll(key[1..]))[6..] == EscapeAll(key[1..]);
      EscapedBodyDecodes(key[1..]);
      assert [key[0]] + key[1..] == key;
    }
  }

  /** Writing any key as escapes and decoding it gives the key back. */
  lemma {:induction false} EscapedKeyDecodes(key: Key)
    requires IsKey(key)
    ensures DecodeToken("\"" + EscapeAll(key) + "\"") == Some(key)
  {
    var token := "\"" + EscapeAll(key) + "\"";
    assert token[1..|token| - 1] == EscapeAll(key);
    EscapedBodyDecodes(key);
  }

  // ---------- What plain text and escapes stand for ----------

  predicate IsPlain(c: char) {
    c != '"' && c != '\\' && c >= ' '
  }

  predicate AllPlain(s: string) {
    forall i :: 0 <= i < |s| ==> IsPlain(s[i])
  }

  /** The code units stand for the character: itself, or a pair of surrogates that recombine to it. */
  predicate Encodes(units: Key, c: char) {
    if c as int < 0x10000 then units == [c as int]
    else |units| == 2 && 0xd800 <= units[0] < 0xdc00 && 0xdc00 <= units[1] < 0xe000
         && c as int == 0x10000 + (units[0] - 0xd800) * 0x400 + (units[1] - 0xdc00)
  }

  lemma {:induction false} UnitsEncode(c: char)
    ensures Encodes(Units(c), c)
  {
  }

  /** `units` are the characters of `s` one after the other. */
  predicate AllEncode(units: Key, s: string) {
    if s == "" then units == [] else
      var n := if s[0] as int < 0x10000 then 1 else 2;
      n <= |units| && Encodes(units[..n], s[0]) && AllEncode(units[n..], s[1..])
  }

  /** A plainly written key is its own characters. */
  lemma {:induction false} PlainBodyDecodes(s: string)
    requires AllPlain(s)
    ensures DecodeBody(s).Some? && AllEncode(DecodeBody(s).value, s)
  {
    if s != "" {
      PlainBodyDecodes(s[1..]);
      UnitsEncode(s[0]);
      assert DecodeUnit(s) == Some(Unit(Units(s[0]), 1));
      var rest := DecodeBody(s[1..]).value;
      var units := Units(s[0]) + rest;
      assert units[..|Units(s[0])|] == Units(s[0]) && units[|Units(s[0])|..] == rest;
    }
  }

  /** Within the Basic Multilingual Plane that is one code unit per character. */
  lemma {:induction false} BasicBodyDecodes(s: string)
    requires AllPlain(s) && forall i :: 0 <= i < |s| ==> s[i] as int < 0x10000
    ensures DecodeBody(s).Some? && |DecodeBody(s).value| == |s|
    ensures forall i :: 0 <= i < |s| ==> DecodeBody(s).value[i] == s[i] as int
  {
    if s != "" {
      BasicBodyDecodes(s[1..]);
      assert DecodeUnit(s) == Some(Unit([s[0] as int], 1));
      assert forall i :: 0 < i < |s| ==> s[i] == s[1..][i - 1];
    }
  }

  lemma {:induction false} EncodesOne(units: Key, s: string, t: string)
    requires AllEncode(units, s) && AllEncode(units, t)
    ensures s == t
    decreases |s|
  {
    if s != "" && t != "" {
      var n := if s[0] as int < 0x10000 then 1 else 2;
      assert units[0] == units[..n][0];
      SurrogatesApart(s[0]);
      SurrogatesApart(t[0]);
      var m := if t[0] as int < 0x10000 then 1 else 2;
      assert units[..m][0] == units[0];
      assert n == m && s[0] == t[0];
      EncodesOne(units[n..], s[1..], t[1..]);
      assert s == [s[0]] + s[1..] && t == [t[0]] + t[1..];
    }
  }

  /** No character is a surrogate. */
  lemma {:induction false} SurrogatesApart(c: char)
    ensures !(0xd800 <= c as int < 0xe000)
  {
  }

  /** Different plain keys decode to different keys. */
  lemma {:induction false} PlainKeysStayApart(s: string, t: string)
    requires AllPlain(s) && AllPlain(t)
    ensures DecodeToken("\"" + s + "\"").Some? && DecodeToken("\"" + t + "\"").Some?
    ensures DecodeToken("\"" + s + "\"") == DecodeToken("\"" + t + "\"") <==> s == t
  {
    TokenIsBody(s);
    TokenIsBody(t);
    PlainBodyDecodes(s);
    PlainBodyDecodes(t);
    if DecodeBody(s) == DecodeBody(t) {
      EncodesOne(DecodeBody(s).value, s, t);
    }
  }

  lemma {:induction false} TokenIsBody(body: string)
    ensures DecodeToken("\"" + body + "\"") == DecodeBody(body)
  {
    var token := "\"" + body + "\"";
    assert token[1..|token| - 1] == body;
  }

  /** RFC 8259, section 7: the characters after a backslash, and the code points they stand for. */
  const ESCAPES: seq<(char, nat)> := [
    ('"', 0x22), ('\\', 0x5c), ('/', 0x2f), ('b', 0x8), ('f', 0xc), ('n', 0xa), ('r', 0xd), ('t', 0x9)
  ]

  /** A short escape decodes to its code point; after any other character but `u` there is no escape. */
  lemma {:induction false} ShortEscapeDecodes(c: char, rest: string)
    requires c != 'u'
    ensures forall i :: 0 <= i < |ESCAPES| && ESCAPES[i].0 == c ==>
      DecodeUnit(['\\', c] + rest) == Some(Unit([ESCAPES[i].1], 2))
    ensures (forall i :: 0 <= i < |ESCAPES| ==> ESCAPES[i].0 != c) ==> DecodeUnit(['\\', c] + rest) == None
  {
    assert ESCAPES[0].0 == '"' && ESCAPES[1].0 == '\\' && ESCAPES[2].0 == '/' && ESCAPES[3].0 == 'b';
    assert ESCAPES[4].0 == 'f' && ESCAPES[5].0 == 'n' && ESCAPES[6].0 == 'r' && ESCAPES[7].0 == 't';
  }

  /** A hexadecimal digit has the same value in either case; nothing else is one. */
  lemma {:induction false} HexDigitsAre(c: char)
    ensures HexDigit(c).Some? <==> LowerChar(c) in "0123456789abcdef"
    ensures HexDigit(c).Some? ==> HexDigit(c).value < 16 && HexChar(HexDigit(c).value) == LowerChar(c)
  {
  }

  // ---------- The scanner with this decoder ----------

  /** `scanJsonObjectKeys` succeeds exactly on the layouts of trees, and reports exactly the repeated keys. */
  lemma {:induction false} ScansJson(source: string)
    ensures Input(source, DecodeToken).ScanText().Ok? <==>
      exists t, trail :: Layout(DecodeToken, source, t, trail)
    ensures forall t, trail :: Layout(DecodeToken, source, t, trail) ==>
      Input(source, DecodeToken).ScanText() == Ok(Duplicates(DecodeToken, t))
  {
    DecodesOnlyTokens();
    ScansExactlyLayouts(Input(source, DecodeToken));
    forall t, trail | Layout(DecodeToken, source, t, trail)
      ensures Input(source, DecodeToken).ScanText() == Ok(Duplicates(DecodeToken, t))
    {
      ScansLayout(Input(source, DecodeToken), t, trail);
    }
  }

  // ---------- Every JSON text is such a layout ----------

  /** RFC 8259, section 2: the insignificant whitespace. */
  predicate JsonSpace(s: string) {
    forall i :: 0 <= i < |s| ==> s[i] in " \t\n\r"
  }

  function DigitsEnd(s: string, p: nat): (end: nat)
    requires p <= |s|
    ensures p <= end <= |s| && forall i :: p <= i < end ==> '0' <= s[i] <= '9'
    decreases |s| - p
  {
    if p < |s| && '0' <= s[p] <= '9' then DigitsEnd(s, p + 1) else p
  }

  /** RFC 8259, section 6: a number. */
  predicate IsNumber(s: string) {
    var start := if s != "" && s[0] == '-' then 1 else 0;
    var whole := DigitsEnd(s, start);
    start < whole && (s[start] == '0' ==> whole == start + 1) && IsFraction(s, whole)
  }

  predicate IsFraction(s: string, p: nat)
    requires p <= |s|
  {
    if p < |s| && s[p] == '.'
    then p + 1 < DigitsEnd(s, p + 1) && IsExponent(s, DigitsEnd(s, p + 1))
    else IsExponent(s, p)
  }

  predicate IsExponent(s: string, p: nat)
    requires p <= |s|
  {
    if p == |s| then true else
      && s[p] in "eE"
      && var first := if p + 1 < |s| && s[p + 1] in "+-" then p + 2 else p + 1;
         first < DigitsEnd(s, first) == |s|
  }

  predicate IsNumberChar(c: char) {
    '0' <= c <= '9' || c in "+-.eE"
  }

  lemma {:induction false} NumberChars(s: string)
    requires IsNumber(s)
    ensures s != "" && forall i :: 0 <= i < |s| ==> IsNumberChar(s[i])
  {
    var start := if s != "" && s[0] == '-' then 1 else 0;
    var whole := DigitsEnd(s, start);
    var fraction := if whole < |s| && s[whole] == '.' then DigitsEnd(s, whole + 1) else whole;
    assert forall i :: 0 <= i < fraction ==> IsNumberChar(s[i]);
    if fraction < |s| {
      var first := if fraction + 1 < |s| && s[fraction + 1] in "+-" then fraction + 2 else fraction + 1;
      assert forall i :: first <= i < |s| ==> IsNumberChar(s[i]);
    }
  }

  predicate JsonAtom(s: string) {
    s == "true" || s == "false" || s == "null" || IsNumber(s)
  }

  /** A JSON value of RFC 8259 with its layout. */
  predicate IsJson(t: Tree) {
    && JsonSpace(t.lead)
    && match t
       case Str(_, token) => DecodeToken(token).Some?
       case Atom(_, text) => JsonAtom(text)
       case EmptyObject(_, inner) => JsonSpace(inner)
       case Object(_, members) => AreJsonMembers(members)
       case EmptyArray(_, inner) => JsonSpace(inner)
       case Array(_, elements) => AreJsonElements(elements)
  }

  predicate AreJsonMembers(m: Members) {
    && JsonSpace(m.before) && DecodeToken(m.key).Some? && JsonSpace(m.gap) && IsJson(m.value) && JsonSpace(m.trail)
    && (m.Member? ==> AreJsonMembers(m.rest))
  }

  predicate AreJsonElements(e: Elements) {
    IsJson(e.value) && JsonSpace(e.trail) && (e.Element? ==> AreJsonElements(e.rest))
  }

  lemma {:induction false} JsonSpaceIsSpace(s: string)
    requires JsonSpace(s)
    ensures AllSpace(s)
  {
    forall i | 0 <= i < |s| ensures IsSpace(s[i]) {
      assert s[i] in " \t\n\r";
    }
  }

  lemma {:induction false} JsonAtomIsAtom(s: string)
    requires JsonAtom(s)
    ensures s != "" && AtomText(s)
  {
    if IsNumber(s) {
      NumberChars(s);
      forall i | 0 <= i < |s| ensures !IsStop(s[i]) && s[i] !in "{[\"" {
        assert IsNumberChar(s[i]);
      }
    }
  }

  lemma {:induction false} JsonIsValid(t: Tree)
    requires IsJson(t)
    ensures Valid(DecodeToken, t) && !EmptyAtom(t)
    decreases t
  {
    JsonSpaceIsSpace(t.lead);
    match t
    case Atom(_, text) => JsonAtomIsAtom(text);
    case EmptyObject(_, inner) => JsonSpaceIsSpace(inner);
    case Object(_, members) => JsonMembersAreValid(members);
    case EmptyArray(_, inner) => JsonSpaceIsSpace(inner);
    case Array(_, elements) => JsonElementsAreValid(elements);
    case _ =>
  }

  lemma {:induction false} JsonMembersAreValid(m: Members)
    requires AreJsonMembers(m)
    ensures ValidMembers(DecodeToken, m)
    decreases m
  {
    JsonSpaceIsSpace(m.before);
    JsonSpaceIsSpace(m.gap);
    JsonSpaceIsSpace(m.trail);
    JsonIsValid(m.value);
    if m.Member? {
      JsonMembersAreValid(m.rest);
    }
  }

  lemma {:induction false} JsonElementsAreValid(e: Elements)
    requires AreJsonElements(e)
    ensures ValidElements(DecodeToken, e)
    decreases e
  {
    JsonSpaceIsSpace(e.trail);
    JsonIsValid(e.value);
    if e.Element? {
      JsonElementsAreValid(e.rest);
    }
  }

  /** Every JSON text of RFC 8259, whatever its whitespace, is scanned to its end, with exactly its repeated keys. */
  lemma {:induction false} JsonTextsScan(t: Tree, trail: string)
    requires IsJson(t) && JsonSpace(trail)
    ensures Input(Print(t) + trail, DecodeToken).ScanText() == Ok(Duplicates(DecodeToken, t))
  {
    JsonIsValid(t);
    JsonSpaceIsSpace(trail);
    DecodesOnlyTokens();
    ScansLayout(Input(Print(t) + trail, DecodeToken), t, trail);
  }

  /** The scanner accepts more than JSON: the empty text, which is no JSON text. */
  lemma {:induction false} EmptyTextIsScanned(t: Tree, trail: string)
    ensures Input("", DecodeToken).ScanText() == Ok([])
    ensures IsJson(t) ==> Print(t) + trail != ""
  {
    var x := Input("", DecodeToken);
    assert x.ScanValue(0) == Ok(Scanned(0, []));
    match t
    case Str(lead, token) => assert DecodeToken("") == None;
    case Atom(lead, text) =>
      if JsonAtom(text) {
        JsonAtomIsAtom(text);
      }
    case _ =>
  }
}
