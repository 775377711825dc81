/**
 What the scanner is for: a text is scanned successfully exactly when it is a tree printed with some
 whitespace layout, and the keys reported are exactly the repeated key occurrences of that tree.
 */
module JsonLayout {
  import opened Wrappers
  import opened JsText
  import opened JsonScanner

  // ---------- Trees with their layout ----------

  /** A JSON value as laid out in a text; `lead` is the whitespace before it. */
  datatype Tree =
    | Str(lead: string, token: string)
    | Atom(lead: string, text: string)
    | EmptyObject(lead: string, inner: string)
    | Object(lead: string, members: Members)
    | EmptyArray(lead: string, inner: string)
    | Array(lead: string, elements: Elements)

  /** Members with the whitespace before the key, after the key and after the value. */
  datatype Members =
    | LastMember(before: string, key: string, gap: string, value: Tree, trail: string)
    | Member(before: string, key: string, gap: string, value: Tree, trail: string, rest: Members)

  datatype Elements =
    | LastElement(value: Tree, trail: string)
    | Element(value: Tree, trail: string, rest: Elements)

  function Print(t: Tree): string {
    match t
    case Str(lead, token) => lead + token
    case Atom(lead, text) => lead + text
    case EmptyObject(lead, inner) => lead + ("{" + (inner + "}"))
    case Object(lead, members) => lead + ("{" + PrintMembers(members))
    case EmptyArray(lead, inner) => lead + ("[" + (inner + "]"))
    case Array(lead, elements) => lead + ("[" + PrintElements(elements))
  }

  function PrintKey(m: Members): string {
    m.before + (m.key + (m.gap + ":"))
  }

  function PrintMembers(m: Members): string {
    PrintKey(m) + (Print(m.value) + (m.trail +
      match m
      case LastMember(_, _, _, _, _) => "}"
      case Member(_, _, _, _, _, rest) => "," + PrintMembers(rest)))
  }

  function PrintElements(e: Elements): string {
    Print(e.value) + (e.trail +
      match e
      case LastElement(_, _) => "]"
      case Element(_, _, rest) => "," + PrintElements(rest))
  }

  predicate AllSpace(s: string) {
    forall i :: 0 <= i < |s| ==> IsSpace(s[i])
  }

  /** Numbers and words: no stop character inside, and nothing that opens another kind of value. */
  predicate AtomText(s: string) {
    && (forall i :: 0 <= i < |s| ==> !IsStop(s[i]))
    && (s != "" ==> s[0] != '{' && s[0] != '[' && s[0] != '"')
  }

  predicate EmptyAtom(t: Tree) {
    t.Atom? && t.text == ""
  }

  /**
   Trees the scanner reads. Every JSON text is such a tree; the scanner also lets an atom be any run of
   characters, or empty, in which case all the whitespace around it counts as `lead`.
   */
  predicate Valid(decode: Decode, t: Tree) {
    && AllSpace(t.lead)
    && match t
       case Str(_, token) => decode(token).Some?
       case Atom(_, text) => AtomText(text)
       case EmptyObject(_, inner) => AllSpace(inner)
       case Object(_, members) => ValidMembers(decode, members)
       case EmptyArray(_, inner) => AllSpace(inner)
       case Array(_, elements) => ValidElements(decode, elements)
  }

  predicate ValidKey(decode: Decode, m: Members) {
    AllSpace(m.before) && decode(m.key).Some? && AllSpace(m.gap)
  }

  predicate ValidTrail(t: Tree, trail: string) {
    AllSpace(trail) && (EmptyAtom(t) ==> trail == "")
  }

  predicate ValidMembers(decode: Decode, m: Members) {
    && ValidKey(decode, m) && Valid(decode, m.value) && ValidTrail(m.value, m.trail)
    && (m.Member? ==> ValidMembers(decode, m.rest))
  }

  predicate ValidElements(decode: Decode, e: Elements) {
    && Valid(decode, e.value) && ValidTrail(e.value, e.trail)
    && (e.Element? ==> ValidElements(decode, e.rest))
  }

  // ---------- Repeated keys, by recursion ----------

  function KeyOf(decode: Decode, token: string): Key {
    var key := decode(token);
    if key.Some? then key.value else []
  }

  function Duplicates(decode: Decode, t: Tree): seq<Key> {
    match t
    case Object(_, members) => MemberDuplicates(decode, members, {})
    case Array(_, elements) => ElementDuplicates(decode, elements)
    case _ => []
  }

  function MemberDuplicates(decode: Decode, m: Members, keys: set<Key>): seq<Key> {
    var key := KeyOf(decode, m.key);
    var here := (if key in keys then [key] else []) + Duplicates(decode, m.value);
    match m
    case LastMember(_, _, _, _, _) => here
    case Member(_, _, _, _, _, rest) => here + MemberDuplicates(decode, rest, keys + {key})
  }

  function ElementDuplicates(decode: Decode, e: Elements): seq<Key> {
    match e
    case LastElement(value, _) => Duplicates(decode, value)
    case Element(value, _, rest) => Duplicates(decode, value) + ElementDuplicates(decode, rest)
  }

  // ---------- Texts at positions ----------

  /** `part` stands in the text at position `p`. */
  predicate At(source: string, p: nat, part: string)
    decreases |part|
  {
    if part == "" then p <= |source| else CharAt(source, p, part[0]) && At(source, p + 1, part[1..])
  }

  lemma {:induction false} AtIsSlice(source: string, p: nat, part: string)
    ensures At(source, p, part) <==> p + |part| <= |source| && source[p..p + |part|] == part
    decreases |part|
  {
    if part != "" {
      AtIsSlice(source, p + 1, part[1..]);
      assert part == [part[0]] + part[1..];
      if p + |part| <= |source| {
        assert source[p..p + |part|] == [source[p]] + source[p + 1..p + |part|];
      }
    }
  }

  lemma {:induction false} AtSplit(source: string, p: nat, a: string, b: string)
    ensures At(source, p, a + b) <==> At(source, p, a) && At(source, p + |a|, b)
    decreases |a|
  {
    if a == "" {
      assert a + b == b;
      AtIsSlice(source, p, b);
    } else {
      AtSplit(source, p + 1, a[1..], b);
      assert (a + b)[1..] == a[1..] + b;
    }
  }

  predicate SpaceAt(source: string, p: nat) {
    p < |source| && IsSpace(source[p])
  }

  /** The cursor crosses exactly the whitespace laid out before a character that is not whitespace. */
  lemma {:induction false} SkipsLayout(source: string, p: nat, space: string)
    requires AllSpace(space) && At(source, p, space) && !SpaceAt(source, p + |space|)
    ensures SkipSpace(source, p) == p + |space|
    decreases |space|
  {
    if space != "" {
      SkipsLayout(source, p + 1, space[1..]);
    }
  }

  lemma {:induction false} SkippedIsSpace(source: string, p: nat)
    requires p <= |source|
    ensures AllSpace(source[p..SkipSpace(source, p)]) && !SpaceAt(source, SkipSpace(source, p))
    decreases |source| - p
  {
    if SpaceAt(source, p) {
      SkippedIsSpace(source, p + 1);
      assert source[p..SkipSpace(source, p)] == [source[p]] + source[p + 1..SkipSpace(source, p)];
    }
  }

  lemma {:induction false} ReadsAtom(source: string, p: nat, text: string)
    requires At(source, p, text) && forall i :: 0 <= i < |text| ==> !IsStop(text[i])
    requires p + |text| < |source| ==> IsStop(source[p + |text|])
    ensures AtomEnd(source, p) == p + |text|
    decreases |text|
  {
    if text != "" {
      ReadsAtom(source, p + 1, text[1..]);
    }
  }

  lemma {:induction false} AtomHasNoStop(source: string, p: nat)
    requires p <= |source|
    ensures forall i :: p <= i < AtomEnd(source, p) ==> !IsStop(source[i])
    ensures AtomEnd(source, p) < |source| ==> IsStop(source[AtomEnd(source, p)])
    decreases |source| - p
  {
    if p < |source| && !IsStop(source[p]) {
      AtomHasNoStop(source, p + 1);
    }
  }

  // ---------- String tokens ----------

  /** A quote, then no quote that is not escaped until the last character. */
  predicate IsToken(token: string) {
    |token| >= 2 && token[0] == '"' && StringEnd(token, 1) == Some(|token|)
  }

  /** A decoder accepts nothing but string tokens, as `JSON.parse` does on the slices it is given. */
  ghost predicate Lawful(decode: Decode) {
    forall token :: decode(token).Some? ==> IsToken(token)
  }

  /** What follows a string token does not change where it ends. */
  lemma {:induction false} StringEndLocal(source: string, p: nat, token: string, i: nat)
    requires At(source, p, token) && StringEnd(token, i).Some?
    ensures StringEnd(source, p + i) == Some(p + StringEnd(token, i).value)
    decreases |token| - i
  {
    AtIsSlice(source, p, token);
    assert source[p + i] == source[p..p + |token|][i];
    if token[i] != '"' {
      StringEndLocal(source, p, token, if token[i] == '\\' then i + 2 else i + 1);
    }
  }

  /** A string token is read to its own closing quote. */
  lemma {:induction false} ReadsToken(x: Input, p: nat, token: string)
    requires Lawful(x.decode) && x.decode(token).Some? && At(x.source, p, token)
    ensures x.ScanString(p) == Ok(Token(p + |token|, KeyOf(x.decode, token)))
    ensures CharAt(x.source, p, '"')
  {
    assert IsToken(token);
    StringEndLocal(x.source, p, token, 1);
    AtIsSlice(x.source, p, token);
  }

  // ---------- A tree laid out at a position ----------

  function Length(t: Tree): nat
    decreases t, 0
  {
    match t
    case Str(lead, token) => |lead| + |token|
    case Atom(lead, text) => |lead| + |text|
    case EmptyObject(lead, inner) => |lead| + 1 + |inner| + 1
    case EmptyArray(lead, inner) => |lead| + 1 + |inner| + 1
    case Object(lead, members) => |lead| + 1 + MembersLength(members)
    case Array(lead, elements) => |lead| + 1 + ElementsLength(elements)
  }

  function KeyLength(m: Members): nat {
    |m.before| + |m.key| + |m.gap| + 1
  }

  /** Key, value, trailing whitespace and the delimiter after them. */
  function MemberLength(m: Members): nat
    decreases m, 0
  {
    KeyLength(m) + Length(m.value) + |m.trail| + 1
  }

  function MembersLength(m: Members): nat
    decreases m, 1
  {
    MemberLength(m) + match m
                      case LastMember(_, _, _, _, _) => 0
                      case Member(_, _, _, _, _, rest) => MembersLength(rest)
  }

  function ElementLength(e: Elements): nat
    decreases e, 0
  {
    Length(e.value) + |e.trail| + 1
  }

  function ElementsLength(e: Elements): nat
    decreases e, 1
  {
    ElementLength(e) + match e
                       case LastElement(_, _) => 0
                       case Element(_, _, rest) => ElementsLength(rest)
  }

  /** The pieces of `t` stand one after the other from position `p` on. */
  predicate TreeAt(source: string, p: nat, t: Tree)
    decreases t
  {
    && At(source, p, t.lead)
    && var q := p + |t.lead|;
       match t
       case Str(_, token) => At(source, q, token)
       case Atom(_, text) => At(source, q, text)
       case EmptyObject(_, inner) => CharAt(source, q, '{') && TrailAt(source, q + 1, inner, '}')
       case EmptyArray(_, inner) => CharAt(source, q, '[') && TrailAt(source, q + 1, inner, ']')
       case Object(_, members) => CharAt(source, q, '{') && MembersAt(source, q + 1, members)
       case Array(_, elements) => CharAt(source, q, '[') && ElementsAt(source, q + 1, elements)
  }

  predicate TrailAt(source: string, p: nat, trail: string, delimiter: char) {
    At(source, p, trail) && CharAt(source, p + |trail|, delimiter)
  }

  predicate KeyAt(source: string, p: nat, m: Members) {
    && At(source, p, m.before) && At(source, p + |m.before|, m.key)
    && TrailAt(source, p + |m.before| + |m.key|, m.gap, ':')
  }

  predicate MembersAt(source: string, p: nat, m: Members)
    decreases m
  {
    && KeyAt(source, p, m) && TreeAt(source, p + KeyLength(m), m.value)
    && TrailAt(source, p + KeyLength(m) + Length(m.value), m.trail, if m.Member? then ',' else '}')
    && (m.Member? ==> MembersAt(source, p + MemberLength(m), m.rest))
  }

  predicate ElementsAt(source: string, p: nat, e: Elements)
    decreases e
  {
    && TreeAt(source, p, e.value)
    && TrailAt(source, p + Length(e.value), e.trail, if e.Element? then ',' else ']')
    && (e.Element? ==> ElementsAt(source, p + ElementLength(e), e.rest))
  }

  lemma {:induction false} AtTrail(source: string, p: nat, trail: string, delimiter: char)
    ensures At(source, p, trail + [delimiter]) <==> TrailAt(source, p, trail, delimiter)
  {
    AtSplit(source, p, trail, [delimiter]);
  }

  lemma {:induction false} AtTrailThen(source: string, p: nat, trail: string, delimiter: char, rest: string)
    ensures At(source, p, trail + ([delimiter] + rest)) <==>
      TrailAt(source, p, trail, delimiter) && At(source, p + |trail| + 1, rest)
  {
    AtSplit(source, p, trail, [delimiter] + rest);
    assert [delimiter] + rest != "" && ([delimiter] + rest)[1..] == rest;
  }

  /** Standing at a position piece by piece is standing there as printed. */
  lemma {:induction false} PrintedAt(source: string, p: nat, t: Tree)
    ensures |Print(t)| == Length(t)
    ensures At(source, p, Print(t)) <==> TreeAt(source, p, t)
    decreases t
  {
    match t
    case Str(lead, token) => AtSplit(source, p, lead, token);
    case Atom(lead, text) => AtSplit(source, p, lead, text);
    case EmptyObject(lead, inner) =>
      AtTrailThen(source, p, lead, '{', inner + "}");
      AtTrail(source, p + |lead| + 1, inner, '}');
    case EmptyArray(lead, inner) =>
      AtTrailThen(source, p, lead, '[', inner + "]");
      AtTrail(source, p + |lead| + 1, inner, ']');
    case Object(lead, members) =>
      AtTrailThen(source, p, lead, '{', PrintMembers(members));
      PrintedMembersAt(source, p + |lead| + 1, members);
    case Array(lead, elements) =>
      AtTrailThen(source, p, lead, '[', PrintElements(elements));
      PrintedElementsAt(source, p + |lead| + 1, elements);
  }

  lemma {:induction false} PrintedKeyAt(source: string, p: nat, m: Members)
    ensures |PrintKey(m)| == KeyLength(m)
    ensures At(source, p, PrintKey(m)) <==> KeyAt(source, p, m)
  {
    AtSplit(source, p, m.before, m.key + (m.gap + ":"));
    AtSplit(source, p + |m.before|, m.key, m.gap + ":");
    AtTrail(source, p + |m.before| + |m.key|, m.gap, ':');
  }

  lemma {:induction false} PrintedMembersAt(source: string, p: nat, m: Members)
    ensures |PrintMembers(m)| == MembersLength(m)
    ensures At(source, p, PrintMembers(m)) <==> MembersAt(source, p, m)
    decreases m
  {
    hide Print, TreeAt, PrintKey, KeyAt;
    var rest := m.trail + match m
                          case LastMember(_, _, _, _, _) => "}"
                          case Member(_, _, _, _, _, rest) => "," + PrintMembers(rest);
    assert PrintMembers(m) == PrintKey(m) + (Print(m.value) + rest);
    AtSplit(source, p, PrintKey(m), Print(m.value) + rest);
    AtSplit(source, p + |PrintKey(m)|, Print(m.value), rest);
    PrintedKeyAt(source, p, m);
    PrintedAt(source, p + KeyLength(m), m.value);
    var r := p + KeyLength(m) + Length(m.value);
    match m
    case LastMember(_, _, _, _, trail) => AtTrail(source, r, trail, '}');
    case Member(_, _, _, _, trail, more) =>
      AtTrailThen(source, r, trail, ',', PrintMembers(more));
      PrintedMembersAt(source, p + MemberLength(m), more);
  }

  lemma {:induction false} PrintedElementsAt(source: string, p: nat, e: Elements)
    ensures |PrintElements(e)| == ElementsLength(e)
    ensures At(source, p, PrintElements(e)) <==> ElementsAt(source, p, e)
    decreases e
  {
    var rest := e.trail + match e
                          case LastElement(_, _) => "]"
                          case Element(_, _, rest) => "," + PrintElements(rest);
    assert PrintElements(e) == Print(e.value) + rest;
    AtSplit(source, p, Print(e.value), rest);
    PrintedAt(source, p, e.value);
    var r := p + Length(e.value);
    match e
    case LastElement(_, trail) => AtTrail(source, r, trail, ']');
    case Element(_, trail, more) =>
      AtTrailThen(source, r, trail, ',', PrintElements(more));
      PrintedElementsAt(source, p + ElementLength(e), more);
  }

  // ---------- A tree laid out is scanned ----------

  /** What may stand after a value: an atom ends at a stop character, an empty one not at whitespace. */
  predicate EndsAt(source: string, end: nat, t: Tree) {
    && (t.Atom? && end < |source| ==> IsStop(source[end]))
    && (EmptyAtom(t) ==> !SpaceAt(source, end))
  }

  lemma {:induction false} SkipSpaceTwice(source: string, p: nat)
    requires p <= |source|
    ensures SkipSpace(source, SkipSpace(source, p)) == SkipSpace(source, p)
  {
    SkippedIsSpace(source, p);
  }

  /** Whitespace and a character that is not whitespace. */
  lemma {:induction false} ScansTrail(source: string, p: nat, trail: string, delimiter: char)
    requires AllSpace(trail) && !IsSpace(delimiter) && TrailAt(source, p, trail, delimiter)
    ensures SkipSpace(source, p) == p + |trail|
    ensures trail != "" ==> SpaceAt(source, p)
  {
    SkipsLayout(source, p, trail);
  }

  /** A value followed by its trailing whitespace and a delimiter ends where it should. */
  lemma {:induction false} TrailEnds(source: string, p: nat, t: Tree, trail: string, delimiter: char)
    requires delimiter in ",]}" && ValidTrail(t, trail) && TrailAt(source, p, trail, delimiter)
    ensures EndsAt(source, p, t) && SkipSpace(source, p) == p + |trail|
  {
    ScansTrail(source, p, trail, delimiter);
  }

  lemma {:induction false} ScansToken(x: Input, p: nat, lead: string, token: string)
    requires Lawful(x.decode) && AllSpace(lead) && x.decode(token).Some?
    requires At(x.source, p, lead) && At(x.source, p + |lead|, token)
    ensures SkipSpace(x.source, p) == p + |lead| && CharAt(x.source, p + |lead|, '"')
    ensures x.ScanString(p + |lead|) == Ok(Token(p + |lead| + |token|, KeyOf(x.decode, token)))
  {
    SkipsLayout(x.source, p, lead);
    ReadsToken(x, p + |lead|, token);
  }

  lemma {:induction false} ScansAtom(x: Input, p: nat, t: Tree)
    requires Lawful(x.decode) && t.Atom? && Valid(x.decode, t)
    requires TreeAt(x.source, p, t) && EndsAt(x.source, p + Length(t), t)
    ensures SkipSpace(x.source, p) == p + |t.lead|
    ensures x.ScanValue(p) == Ok(Scanned(p + Length(t), []))
    ensures CharAt(x.source, p + |t.lead|, ']') ==> t.text == ""
  {
    var q := p + |t.lead|;
    SkipsLayout(x.source, p, t.lead);
    ReadsAtom(x.source, q, t.text);
  }

  lemma {:induction false} ScansKey(x: Input, p: nat, m: Members)
    requires Lawful(x.decode) && ValidKey(x.decode, m) && KeyAt(x.source, p, m)
    ensures x.ScanKey(p) == Ok(Token(p + KeyLength(m), KeyOf(x.decode, m.key)))
    ensures CharAt(x.source, SkipSpace(x.source, p), '"')
  {
    ScansToken(x, p, m.before, m.key);
    ScansTrail(x.source, p + |m.before| + |m.key|, m.gap, ':');
  }

  /** One turn of the loop of an object, given that its value is scanned. */
  lemma {:induction false} ScansMember(x: Input, p: nat, m: Members, keys: set<Key>)
    requires Lawful(x.decode) && ValidKey(x.decode, m) && KeyAt(x.source, p, m)
    requires var q := p + KeyLength(m);
             && q <= |x.source| && x.ScanValue(q) == Ok(Scanned(q + Length(m.value), Duplicates(x.decode, m.value)))
             && SkipSpace(x.source, q + Length(m.value)) == q + Length(m.value) + |m.trail|
             && CharAt(x.source, q + Length(m.value) + |m.trail|, if m.Member? then ',' else '}')
    ensures x.ScanMember(p, keys) == Ok(TurnOf(x, p, m, keys))
  {
    hide Input.ScanValue, Input.ScanKey, KeyAt, ValidKey;
    ScansKey(x, p, m);
  }

  /** The turn the loop of an object takes for the first of `m`. */
  function TurnOf(x: Input, p: nat, m: Members, keys: set<Key>): Turn {
    Turn(KeyOf(x.decode, m.key),
      (if KeyOf(x.decode, m.key) in keys then [KeyOf(x.decode, m.key)] else []) + Duplicates(x.decode, m.value),
      p + MemberLength(m), m.LastMember?)
  }

  /** The loop takes one turn per member. */
  ghost predicate TurnsTaken(x: Input, p: nat, m: Members, keys: set<Key>)
    decreases m
  {
    && p < |x.source| && x.ScanMember(p, keys) == Ok(TurnOf(x, p, m, keys))
    && (m.Member? ==> TurnsTaken(x, p + MemberLength(m), m.rest, keys + {KeyOf(x.decode, m.key)}))
  }

  lemma {:induction false} TakesTurns(x: Input, p: nat, m: Members, keys: set<Key>)
    requires Lawful(x.decode) && ValidMembers(x.decode, m) && MembersAt(x.source, p, m)
    ensures TurnsTaken(x, p, m, keys)
    decreases m, 1
  {
    hide Input.ScanMember, Input.ScanKey, TreeAt, Valid, Duplicates;
    ScansMemberValue(x, p, m, keys);
    assert p < |x.source| by { ScansKey(x, p, m); }
    if m.Member? {
      TakesTurns(x, p + MemberLength(m), m.rest, keys + {KeyOf(x.decode, m.key)});
    }
  }

  lemma {:induction false} TurnsAdd(x: Input, p: nat, m: Members, keys: set<Key>)
    requires TurnsTaken(x, p, m, keys)
    ensures p <= |x.source|
    ensures x.ScanMembers(p, keys) == Ok(Scanned(p + MembersLength(m), MemberDuplicates(x.decode, m, keys)))
    decreases m
  {
    hide Input.ScanMember;
    TakesTurn(x, p, keys, TurnOf(x, p, m, keys));
    if m.Member? {
      TurnsAdd(x, p + MemberLength(m), m.rest, keys + {KeyOf(x.decode, m.key)});
    }
  }

  /** The loop of an object after one turn. */
  lemma {:induction false} TakesTurn(x: Input, p: nat, keys: set<Key>, turn: Turn)
    requires p < |x.source| && x.ScanMember(p, keys) == Ok(turn)
    ensures x.ScanMembers(p, keys)
         == if turn.closed then Ok(Scanned(turn.end, turn.duplicates))
            else Prepend(turn.duplicates, x.ScanMembers(turn.end, keys + {turn.key}))
  {
  }

  lemma {:induction false} ScansMemberValue(x: Input, p: nat, m: Members, keys: set<Key>)
    requires Lawful(x.decode) && ValidMembers(x.decode, m) && MembersAt(x.source, p, m)
    ensures x.ScanMember(p, keys) == Ok(TurnOf(x, p, m, keys))
    decreases m, 0
  {
    var q := p + KeyLength(m);
    TrailEnds(x.source, q + Length(m.value), m.value, m.trail, if m.Member? then ',' else '}');
    ScansValue(x, q, m.value);
    ScansMember(x, p, m, keys);
  }

  function ElementTurn(x: Input, p: nat, e: Elements): Turn {
    Turn([], Duplicates(x.decode, e.value), p + ElementLength(e), e.LastElement?)
  }

  /** The loop of an array takes one turn per element. */
  ghost predicate ElementTurnsTaken(x: Input, p: nat, e: Elements)
    decreases e
  {
    && p < |x.source| && x.ScanElement(p) == Ok(ElementTurn(x, p, e))
    && (e.Element? ==> ElementTurnsTaken(x, p + ElementLength(e), e.rest))
  }

  lemma {:induction false} ScansElementValue(x: Input, p: nat, e: Elements)
    requires Lawful(x.decode) && ValidElements(x.decode, e) && ElementsAt(x.source, p, e)
    ensures p < |x.source| && x.ScanElement(p) == Ok(ElementTurn(x, p, e))
    decreases e, 0
  {
    hide Input.ScanValue, TreeAt, Valid, Duplicates;
    TrailEnds(x.source, p + Length(e.value), e.value, e.trail, if e.Element? then ',' else ']');
    ScansValue(x, p, e.value);
  }

  lemma {:induction false} TakesElementTurns(x: Input, p: nat, e: Elements)
    requires Lawful(x.decode) && ValidElements(x.decode, e) && ElementsAt(x.source, p, e)
    ensures ElementTurnsTaken(x, p, e)
    decreases e, 1
  {
    hide Input.ScanElement, TreeAt, Valid, Duplicates;
    ScansElementValue(x, p, e);
    if e.Element? {
      TakesElementTurns(x, p + ElementLength(e), e.rest);
    }
  }

  lemma {:induction false} ElementTurnsAdd(x: Input, p: nat, e: Elements)
    requires ElementTurnsTaken(x, p, e)
    ensures p <= |x.source|
    ensures x.ScanElements(p) == Ok(Scanned(p + ElementsLength(e), ElementDuplicates(x.decode, e)))
    decreases e
  {
    hide Input.ScanElement;
    if e.Element? {
      ElementTurnsAdd(x, p + ElementLength(e), e.rest);
    }
  }

  /** A value whose first character closes an array is an empty atom. */
  lemma {:induction false} StartsAtBracket(x: Input, p: nat, t: Tree)
    requires Lawful(x.decode) && Valid(x.decode, t) && TreeAt(x.source, p, t) && EndsAt(x.source, p + Length(t), t)
    requires CharAt(x.source, SkipSpace(x.source, p), ']')
    ensures EmptyAtom(t) && SkipSpace(x.source, p) == p + Length(t)
  {
    if t.Atom? {
      ScansAtom(x, p, t);
    } else if t.Str? {
      ScansToken(x, p, t.lead, t.token);
    } else {
      ScansTrail(x.source, p, t.lead, if t.Object? || t.EmptyObject? then '{' else '[');
    }
  }

  lemma {:induction false} ElementsNeedText(x: Input, p: nat)
    requires p <= |x.source|
    ensures x.ScanElements(p).Ok? ==> SkipSpace(x.source, p) < |x.source|
  {
    var q := SkipSpace(x.source, p);
    if q == |x.source| && p < q {
      assert x.ScanValue(p) == Ok(Scanned(q, []));
      assert x.ScanElement(p) == Err(ExpectedElementComma);
    }
  }

  /** The loop of an array starts after whitespace; a lone empty element makes the array look empty. */
  lemma {:induction false} ScansArray(x: Input, p: nat, e: Elements)
    requires Lawful(x.decode) && CharAt(x.source, p, '[')
    requires ValidElements(x.decode, e) && ElementsAt(x.source, p + 1, e)
    requires x.ScanElements(p + 1) == Ok(Scanned(p + 1 + ElementsLength(e), ElementDuplicates(x.decode, e)))
    ensures x.ScanArray(p) == Ok(Scanned(p + 1 + ElementsLength(e), ElementDuplicates(x.decode, e)))
  {
    hide Input.ScanElements, TreeAt, Valid;
    var q := SkipSpace(x.source, p + 1);
    if CharAt(x.source, q, ']') {
      LoneEmptyElement(x, p + 1, e);
    } else {
      ElementsNeedText(x, p + 1);
      ElementsStartAfterSpace(x, p + 1);
    }
  }

  lemma {:induction false} LoneEmptyElement(x: Input, p: nat, e: Elements)
    requires Lawful(x.decode) && ValidElements(x.decode, e) && ElementsAt(x.source, p, e) && p <= |x.source|
    requires CharAt(x.source, SkipSpace(x.source, p), ']')
    ensures SkipSpace(x.source, p) + 1 == p + ElementsLength(e) && ElementDuplicates(x.decode, e) == []
  {
    TrailEnds(x.source, p + Length(e.value), e.value, e.trail, if e.Element? then ',' else ']');
    StartsAtBracket(x, p, e.value);
  }

  /** Skipping whitespace early changes nothing that a loop scans, as long as text is left. */
  lemma {:induction false} ElementsStartAfterSpace(x: Input, p: nat)
    requires p <= |x.source| && SkipSpace(x.source, p) < |x.source|
    ensures x.ScanElements(SkipSpace(x.source, p)) == x.ScanElements(p)
  {
    var q := SkipSpace(x.source, p);
    SkipSpaceTwice(x.source, p);
    assert x.ScanValue(q) == x.ScanValue(p);
    assert x.ScanElement(q) == x.ScanElement(p);
  }

  lemma {:induction false} MembersStartAfterSpace(x: Input, p: nat)
    requires p <= |x.source| && SkipSpace(x.source, p) < |x.source|
    ensures x.ScanMembers(SkipSpace(x.source, p), {}) == x.ScanMembers(p, {})
  {
    var q := SkipSpace(x.source, p);
    SkipSpaceTwice(x.source, p);
    assert x.ScanKey(q) == x.ScanKey(p);
    assert x.ScanMember(q, {}) == x.ScanMember(p, {});
  }

  lemma {:induction false} ScansObject(x: Input, p: nat, m: Members)
    requires Lawful(x.decode) && CharAt(x.source, p, '{')
    requires ValidMembers(x.decode, m) && MembersAt(x.source, p + 1, m)
    requires x.ScanMembers(p + 1, {}) == Ok(Scanned(p + 1 + MembersLength(m), MemberDuplicates(x.decode, m, {})))
    ensures x.ScanObject(p) == Ok(Scanned(p + 1 + MembersLength(m), MemberDuplicates(x.decode, m, {})))
  {
    assert CharAt(x.source, SkipSpace(x.source, p + 1), '"') by { ScansKey(x, p + 1, m); }
    MembersStartAfterSpace(x, p + 1);
  }

  /** A value laid out in the text is scanned to its end, and its repeated keys are reported. */
  lemma {:induction false} ScansValue(x: Input, p: nat, t: Tree)
    requires Lawful(x.decode) && Valid(x.decode, t) && TreeAt(x.source, p, t) && EndsAt(x.source, p + Length(t), t)
    ensures p <= |x.source|
    ensures x.ScanValue(p) == Ok(Scanned(p + Length(t), Duplicates(x.decode, t)))
    decreases t, 1
  {
    match t
    case Str(lead, token) => ScansToken(x, p, lead, token);
    case Atom(_, _) => ScansAtom(x, p, t);
    case EmptyObject(_, _) => ScansEmpty(x, p, t);
    case EmptyArray(_, _) => ScansEmpty(x, p, t);
    case Object(_, _) => ScansObjectValue(x, p, t);
    case Array(_, _) => ScansArrayValue(x, p, t);
  }

  lemma {:induction false} ScansEmpty(x: Input, p: nat, t: Tree)
    requires (t.EmptyObject? || t.EmptyArray?) && Valid(x.decode, t) && TreeAt(x.source, p, t)
    ensures p <= |x.source|
    ensures x.ScanValue(p) == Ok(Scanned(p + Length(t), []))
  {
    var open, close := if t.EmptyObject? then '{' else '[', if t.EmptyObject? then '}' else ']';
    ScansTrail(x.source, p, t.lead, open);
    ScansTrail(x.source, p + |t.lead| + 1, t.inner, close);
  }

  lemma {:induction false} ScansObjectBody(x: Input, q: nat, m: Members)
    requires Lawful(x.decode) && CharAt(x.source, q, '{')
    requires ValidMembers(x.decode, m) && MembersAt(x.source, q + 1, m)
    ensures x.ScanObject(q) == Ok(Scanned(q + 1 + MembersLength(m), MemberDuplicates(x.decode, m, {})))
    decreases m, 2
  {
    hide Input.ScanMember;
    assert TurnsTaken(x, q + 1, m, {}) by { TakesTurns(x, q + 1, m, {}); }
    assert x.ScanMembers(q + 1, {}) == Ok(Scanned(q + 1 + MembersLength(m), MemberDuplicates(x.decode, m, {}))) by {
      TurnsAdd(x, q + 1, m, {});
    }
    ScansObject(x, q, m);
  }

  lemma {:induction false} ScansArrayBody(x: Input, q: nat, e: Elements)
    requires Lawful(x.decode) && CharAt(x.source, q, '[')
    requires ValidElements(x.decode, e) && ElementsAt(x.source, q + 1, e)
    ensures x.ScanArray(q) == Ok(Scanned(q + 1 + ElementsLength(e), ElementDuplicates(x.decode, e)))
    decreases e, 2
  {
    hide Input.ScanElement;
    assert ElementTurnsTaken(x, q + 1, e) by { TakesElementTurns(x, q + 1, e); }
    assert x.ScanElements(q + 1) == Ok(Scanned(q + 1 + ElementsLength(e), ElementDuplicates(x.decode, e))) by {
      ElementTurnsAdd(x, q + 1, e);
    }
    ScansArray(x, q, e);
  }

  lemma {:induction false} ScansObjectValue(x: Input, p: nat, t: Tree)
    requires Lawful(x.decode) && t.Object? && Valid(x.decode, t) && TreeAt(x.source, p, t)
    ensures p <= |x.source|
    ensures x.ScanValue(p) == Ok(Scanned(p + Length(t), Duplicates(x.decode, t)))
    decreases t, 0
  {
    var q := p + |t.lead|;
    assert p <= |x.source| && SkipSpace(x.source, p) == q by { ScansTrail(x.source, p, t.lead, '{'); }
    ScansObjectBody(x, q, t.members);
  }

  lemma {:induction false} ScansArrayValue(x: Input, p: nat, t: Tree)
    requires Lawful(x.decode) && t.Array? && Valid(x.decode, t) && TreeAt(x.source, p, t)
    ensures p <= |x.source|
    ensures x.ScanValue(p) == Ok(Scanned(p + Length(t), Duplicates(x.decode, t)))
    decreases t, 0
  {
    var q := p + |t.lead|;
    assert p <= |x.source| && SkipSpace(x.source, p) == q by { ScansTrail(x.source, p, t.lead, '['); }
    ScansArrayBody(x, q, t.elements);
  }

  // ---------- Whatever is scanned is a tree laid out ----------

  function Slice(source: string, p: nat, q: nat): (part: string)
    requires p <= q <= |source|
    ensures |part| == q - p
  {
    source[p..q]
  }

  lemma {:induction false} SliceAt(source: string, p: nat, q: nat)
    requires p <= q <= |source|
    ensures At(source, p, Slice(source, p, q))
  {
    AtIsSlice(source, p, source[p..q]);
  }

  /** The whitespace the cursor crosses at `p`. */
  lemma {:induction false} SpaceOf(source: string, p: nat) returns (space: string)
    requires p <= |source|
    ensures AllSpace(space) && At(source, p, space) && p + |space| == SkipSpace(source, p)
  {
    space := Slice(source, p, SkipSpace(source, p));
    SliceAt(source, p, SkipSpace(source, p));
    SkippedIsSpace(source, p);
  }

  lemma {:induction false} TokenOf(x: Input, p: nat) returns (token: string)
    requires p <= |x.source| && x.ScanString(p).Ok?
    ensures x.decode(token) == Some(x.ScanString(p).value.key)
    ensures At(x.source, p, token) && p + |token| == x.ScanString(p).value.end
  {
    var end := x.ScanString(p).value.end;
    token := Slice(x.source, p, end);
    SliceAt(x.source, p, end);
  }

  lemma {:induction false} AtomOf(x: Input, p: nat) returns (t: Tree)
    requires p <= |x.source|
    requires var q := SkipSpace(x.source, p);
             !CharAt(x.source, q, '{') && !CharAt(x.source, q, '[') && !CharAt(x.source, q, '"')
    ensures Valid(x.decode, t) && TreeAt(x.source, p, t) && EndsAt(x.source, p + Length(t), t)
    ensures x.ScanValue(p) == Ok(Scanned(p + Length(t), [])) && Duplicates(x.decode, t) == []
  {
    var lead := SpaceOf(x.source, p);
    var q := p + |lead|;
    var end := AtomEnd(x.source, q);
    t := Atom(lead, Slice(x.source, q, end));
    SliceAt(x.source, q, end);
    AtomHasNoStop(x.source, q);
    SkippedIsSpace(x.source, p);
  }

  /** The member read in one turn of the loop, as if it were the last one. */
  lemma {:induction false} MemberOf(x: Input, p: nat, keys: set<Key>) returns (m: Members)
    requires p <= |x.source| && x.ScanMember(p, keys).Ok?
    ensures m.LastMember? && ValidMembers(x.decode, m)
    ensures KeyAt(x.source, p, m) && TreeAt(x.source, p + KeyLength(m), m.value)
    ensures var turn := x.ScanMember(p, keys).value;
            && turn == TurnOf(x, p, m, keys).(closed := turn.closed)
            && TrailAt(x.source, p + KeyLength(m) + Length(m.value), m.trail, if turn.closed then '}' else ',')
    decreases |x.source| - p, 3
  {
    hide Input.ScanKey, TreeAt, Valid, Duplicates;
    var before, key, gap := KeyPartsOf(x, p);
    var q := p + |before| + |key| + |gap| + 1;
    var value := TreeOf(x, q);
    var trail := SpaceOf(x.source, q + Length(value));
    m := LastMember(before, key, gap, value, trail);
  }

  function WithRest(first: Members, rest: Members): Members {
    Member(first.before, first.key, first.gap, first.value, first.trail, rest)
  }

  lemma {:induction false} MembersJoin(x: Input, p: nat, keys: set<Key>, first: Members, rest: Members)
    requires first.LastMember? && ValidMembers(x.decode, first) && ValidMembers(x.decode, rest)
    requires KeyAt(x.source, p, first) && TreeAt(x.source, p + KeyLength(first), first.value)
    requires TrailAt(x.source, p + KeyLength(first) + Length(first.value), first.trail, ',')
    requires MembersAt(x.source, p + MemberLength(first), rest)
    ensures var m := WithRest(first, rest);
            && ValidMembers(x.decode, m) && MembersAt(x.source, p, m)
            && MembersLength(m) == MemberLength(first) + MembersLength(rest)
            && MemberDuplicates(x.decode, m, keys) == TurnOf(x, p, first, keys).duplicates
               + MemberDuplicates(x.decode, rest, keys + {TurnOf(x, p, first, keys).key})
  {
  }

  /** The members read by the loop of an object are laid out where it started. */
  lemma {:induction false} MembersOf(x: Input, p: nat, keys: set<Key>) returns (m: Members)
    requires p <= |x.source| && x.ScanMembers(p, keys).Ok?
    ensures ValidMembers(x.decode, m) && MembersAt(x.source, p, m)
    ensures x.ScanMembers(p, keys) == Ok(Scanned(p + MembersLength(m), MemberDuplicates(x.decode, m, keys)))
    decreases |x.source| - p, 4
  {
    hide Input.ScanMember, TreeAt, Valid, Duplicates;
    var turn := x.ScanMember(p, keys).value;
    TakesTurn(x, p, keys, turn);
    m := MemberOf(x, p, keys);
    if !turn.closed {
      var rest := MembersOf(x, turn.end, keys + {turn.key});
      MembersJoin(x, p, keys, m, rest);
      m := WithRest(m, rest);
    }
  }

  lemma {:induction false} KeyPartsOf(x: Input, p: nat) returns (before: string, key: string, gap: string)
    requires p <= |x.source| && x.ScanKey(p).Ok?
    ensures AllSpace(before) && AllSpace(gap) && x.decode(key) == Some(x.ScanKey(p).value.key)
    ensures At(x.source, p, before) && At(x.source, p + |before|, key)
    ensures TrailAt(x.source, p + |before| + |key|, gap, ':')
    ensures x.ScanKey(p).value.end == p + |before| + |key| + |gap| + 1
  {
    before := SpaceOf(x.source, p);
    key := TokenOf(x, p + |before|);
    gap := SpaceOf(x.source, p + |before| + |key|);
  }

  lemma {:induction false} ElementOf(x: Input, p: nat) returns (e: Elements)
    requires p <= |x.source| && x.ScanElement(p).Ok?
    ensures e.LastElement? && ValidElements(x.decode, e) && TreeAt(x.source, p, e.value)
    ensures var turn := x.ScanElement(p).value;
            && turn == ElementTurn(x, p, e).(closed := turn.closed)
            && TrailAt(x.source, p + Length(e.value), e.trail, if turn.closed then ']' else ',')
    decreases |x.source| - p, 3
  {
    var value := TreeOf(x, p);
    var trail := SpaceOf(x.source, p + Length(value));
    e := LastElement(value, trail);
  }

  lemma {:induction false} ElementsOf(x: Input, p: nat) returns (e: Elements)
    requires p <= |x.source| && x.ScanElements(p).Ok?
    ensures ValidElements(x.decode, e) && ElementsAt(x.source, p, e)
    ensures x.ScanElements(p) == Ok(Scanned(p + ElementsLength(e), ElementDuplicates(x.decode, e)))
    decreases |x.source| - p, 4
  {
    hide Input.ScanElement;
    var turn := x.ScanElement(p).value;
    e := ElementOf(x, p);
    if !turn.closed {
      var rest := ElementsOf(x, turn.end);
      e := Element(e.value, e.trail, rest);
    }
  }

  /** The value read at `p` is a tree laid out there. */
  lemma {:induction false} TreeOf(x: Input, p: nat) returns (t: Tree)
    requires p <= |x.source| && x.ScanValue(p).Ok?
    ensures Valid(x.decode, t) && TreeAt(x.source, p, t) && EndsAt(x.source, p + Length(t), t)
    ensures x.ScanValue(p) == Ok(Scanned(p + Length(t), Duplicates(x.decode, t)))
    decreases |x.source| - p, 2
  {
    var lead := SpaceOf(x.source, p);
    var q := p + |lead|;
    if CharAt(x.source, q, '{') {
      t := ObjectOf(x, p, lead);
    } else if CharAt(x.source, q, '[') {
      t := ArrayOf(x, p, lead);
    } else if CharAt(x.source, q, '"') {
      var token := TokenOf(x, q);
      t := Str(lead, token);
    } else {
      t := AtomOf(x, p);
    }
  }

  lemma {:induction false} ObjectIsMembers(x: Input, q: nat)
    requires CharAt(x.source, q, '{') && x.ScanObject(q).Ok?
    requires !CharAt(x.source, SkipSpace(x.source, q + 1), '}')
    ensures x.ScanObject(q) == x.ScanMembers(q + 1, {})
  {
    MembersStartAfterSpace(x, q + 1);
  }

  lemma {:induction false} ArrayIsElements(x: Input, q: nat)
    requires CharAt(x.source, q, '[') && x.ScanArray(q).Ok?
    requires !CharAt(x.source, SkipSpace(x.source, q + 1), ']')
    ensures x.ScanArray(q) == x.ScanElements(q + 1)
  {
    ElementsStartAfterSpace(x, q + 1);
  }

  lemma {:induction false} ObjectOf(x: Input, p: nat, lead: string) returns (t: Tree)
    requires AllSpace(lead) && At(x.source, p, lead)
    requires CharAt(x.source, p + |lead|, '{') && x.ScanObject(p + |lead|).Ok?
    ensures (t.Object? || t.EmptyObject?) && Valid(x.decode, t) && TreeAt(x.source, p, t)
    ensures x.ScanObject(p + |lead|) == Ok(Scanned(p + Length(t), Duplicates(x.decode, t)))
    decreases |x.source| - p - |lead|, 1
  {
    hide Input.ScanMembers, ValidMembers, MemberDuplicates;
    var q := p + |lead|;
    var inner := SpaceOf(x.source, q + 1);
    if CharAt(x.source, q + 1 + |inner|, '}') {
      t := EmptyObject(lead, inner);
    } else {
      ObjectIsMembers(x, q);
      var members := MembersOf(x, q + 1, {});
      t := Object(lead, members);
    }
  }

  lemma {:induction false} ArrayOf(x: Input, p: nat, lead: string) returns (t: Tree)
    requires AllSpace(lead) && At(x.source, p, lead)
    requires CharAt(x.source, p + |lead|, '[') && x.ScanArray(p + |lead|).Ok?
    ensures (t.Array? || t.EmptyArray?) && Valid(x.decode, t) && TreeAt(x.source, p, t)
    ensures x.ScanArray(p + |lead|) == Ok(Scanned(p + Length(t), Duplicates(x.decode, t)))
    decreases |x.source| - p - |lead|, 1
  {
    hide Input.ScanElements, ValidElements, ElementDuplicates;
    var q := p + |lead|;
    var inner := SpaceOf(x.source, q + 1);
    if CharAt(x.source, q + 1 + |inner|, ']') {
      t := EmptyArray(lead, inner);
    } else {
      ArrayIsElements(x, q);
      var elements := ElementsOf(x, q + 1);
      t := Array(lead, elements);
    }
  }

  // ---------- The scanner reads exactly the layouts ----------

  /** `source` is `t` printed, followed by whitespace. */
  predicate Layout(decode: Decode, source: string, t: Tree, trail: string) {
    Valid(decode, t) && ValidTrail(t, trail) && source == Print(t) + trail
  }

  /** Every tree, however laid out, is scanned to the end, and exactly its repeated keys are reported. */
  lemma {:induction false} ScansLayout(x: Input, t: Tree, trail: string)
    requires Lawful(x.decode) && Layout(x.decode, x.source, t, trail)
    ensures x.ScanText() == Ok(Duplicates(x.decode, t))
  {
    hide Input.ScanValue, TreeAt, Duplicates;
    var end := |Print(t)|;
    AtIsSlice(x.source, 0, x.source);
    AtSplit(x.source, 0, Print(t), trail);
    PrintedAt(x.source, 0, t);
    SkipsLayout(x.source, end, trail);
    ScansValue(x, 0, t);
  }

  /** And every text that is scanned successfully is such a layout. */
  lemma {:induction false} ScannedIsLayout(x: Input) returns (t: Tree, trail: string)
    requires x.ScanText().Ok?
    ensures Layout(x.decode, x.source, t, trail)
    ensures x.ScanText() == Ok(Duplicates(x.decode, t))
  {
    t := TreeOf(x, 0);
    trail := SpaceOf(x.source, Length(t));
    PrintedAt(x.source, 0, t);
    AtSplit(x.source, 0, Print(t), trail);
    AtIsSlice(x.source, 0, Print(t) + trail);
    assert x.source[0..|Print(t) + trail|] == x.source;
  }

  /** The scanner succeeds on exactly the layouts. */
  lemma {:induction false} ScansExactlyLayouts(x: Input)
    requires Lawful(x.decode)
    ensures x.ScanText().Ok? <==> exists t, trail :: Layout(x.decode, x.source, t, trail)
  {
    if x.ScanText().Ok? {
      var t, trail := ScannedIsLayout(x);
    }
    forall t, trail | Layout(x.decode, x.source, t, trail) ensures x.ScanText().Ok? {
      ScansLayout(x, t, trail);
    }
  }
}
