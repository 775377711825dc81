/** `escapeHtmlText`: five replacements one after the other, and what they amount to. */
module HtmlText {
  import opened SeqFacts

  /** `text.replaceAll(c, by)`. */
  function ReplaceAll(s: string, c: char, replacement: string): string {
    if s == "" then "" else (if s[0] == c then replacement else [s[0]]) + ReplaceAll(s[1..], c, replacement)
  }

  function Escape(s: string): string {
    ReplaceAll(ReplaceAll(ReplaceAll(ReplaceAll(ReplaceAll(s,
      '&', "&amp;"), '<', "&lt;"), '>', "&gt;"), '"', "&quot;"), '\'', "&#39;")
  }

  /** What one character stands for, all replacements at once. */
  function EscapeChar(c: char): (escaped: string)
    ensures escaped != ""
  {
    if c == '&' then "&amp;" else if c == '<' then "&lt;" else if c == '>' then "&gt;"
    else if c == '"' then "&quot;" else if c == '\'' then "&#39;" else [c]
  }

  function EscapeEach(s: string): string {
    if s == "" then "" else EscapeChar(s[0]) + EscapeEach(s[1..])
  }

  const ENTITIES := ["&amp;", "&lt;", "&gt;", "&quot;", "&#39;"]

  lemma {:induction false} ReplaceConcat(a: string, b: string, c: char, replacement: string)
    ensures ReplaceAll(a + b, c, replacement) == ReplaceAll(a, c, replacement) + ReplaceAll(b, c, replacement)
  {
    if a == "" {
      assert a + b == b;
    } else {
      ReplaceConcat(a[1..], b, c, replacement);
      assert (a + b)[1..] == a[1..] + b && (a + b)[0] == a[0];
      var head := if a[0] == c then replacement else [a[0]];
      Assoc(head, ReplaceAll(a[1..], c, replacement), ReplaceAll(b, c, replacement));
    }
  }

  lemma {:induction false} EscapeConcat(a: string, b: string)
    ensures Escape(a + b) == Escape(a) + Escape(b)
  {
    var a1, b1 := ReplaceAll(a, '&', "&amp;"), ReplaceAll(b, '&', "&amp;");
    var a2, b2 := ReplaceAll(a1, '<', "&lt;"), ReplaceAll(b1, '<', "&lt;");
    var a3, b3 := ReplaceAll(a2, '>', "&gt;"), ReplaceAll(b2, '>', "&gt;");
    var a4, b4 := ReplaceAll(a3, '"', "&quot;"), ReplaceAll(b3, '"', "&quot;");
    ReplaceConcat(a, b, '&', "&amp;");
    ReplaceConcat(a1, b1, '<', "&lt;");
    ReplaceConcat(a2, b2, '>', "&gt;");
    ReplaceConcat(a3, b3, '"', "&quot;");
    ReplaceConcat(a4, b4, '\'', "&#39;");
  }

  lemma {:induction false} ReplaceNone(s: string, c: char, replacement: string)
    requires c !in s
    ensures ReplaceAll(s, c, replacement) == s
  {
    if s != "" {
      ReplaceNone(s[1..], c, replacement);
    }
  }

  lemma {:induction false} ReplaceChar(d: char, c: char, replacement: string)
    ensures ReplaceAll([d], c, replacement) == if d == c then replacement else [d]
  {
    assert [d][1..] == "" && ReplaceAll("", c, replacement) == "";
  }

  /** The last passes, from the one for `<` on. */
  function FromLess(s: string): string {
    FromGreater(ReplaceAll(s, '<', "&lt;"))
  }

  function FromGreater(s: string): string {
    FromQuote(ReplaceAll(s, '>', "&gt;"))
  }

  function FromQuote(s: string): string {
    ReplaceAll(ReplaceAll(s, '"', "&quot;"), '\'', "&#39;")
  }

  /** Later passes leave the entities of earlier passes alone. */
  lemma {:induction false} QuoteKeeps(s: string)
    requires '"' !in s && '\'' !in s
    ensures FromQuote(s) == s
  {
    ReplaceNone(s, '"', "&quot;");
    ReplaceNone(s, '\'', "&#39;");
  }

  lemma {:induction false} GreaterKeeps(s: string)
    requires '>' !in s && '"' !in s && '\'' !in s
    ensures FromGreater(s) == s
  {
    ReplaceNone(s, '>', "&gt;");
    QuoteKeeps(s);
  }

  lemma {:induction false} LessKeeps(s: string)
    requires '<' !in s && '>' !in s && '"' !in s && '\'' !in s
    ensures FromLess(s) == s
  {
    ReplaceNone(s, '<', "&lt;");
    GreaterKeeps(s);
  }

  lemma {:induction false} AmpersandStays()
    ensures FromLess("&amp;") == "&amp;"
  {
    hide FromLess, FromGreater, FromQuote, ReplaceAll;
    LessKeeps("&amp;");
  }

  lemma {:induction false} EscapeOneChar(c: char)
    ensures Escape([c]) == EscapeChar(c)
  {
    assert Escape([c]) == FromLess(ReplaceAll([c], '&', "&amp;"));
    ReplaceChar(c, '&', "&amp;");
    AmpersandStays();
    hide FromLess, ReplaceAll, Escape;
    if c != '&' {
      LessOneChar(c);
    }
  }

  lemma {:induction false} LessOneChar(c: char)
    requires c != '&'
    ensures FromLess([c]) == EscapeChar(c)
  {
    ReplaceChar(c, '<', "&lt;");
    ReplaceChar(c, '>', "&gt;");
    if c == '<' {
      GreaterKeeps("&lt;");
    } else if c == '>' {
      QuoteKeeps("&gt;");
    } else {
      QuoteOneChar(c);
    }
  }

  lemma {:induction false} QuoteOneChar(c: char)
    requires c != '&' && c != '<' && c != '>'
    ensures FromQuote([c]) == EscapeChar(c)
  {
    ReplaceChar(c, '"', "&quot;");
    ReplaceChar(c, '\'', "&#39;");
    if c == '"' {
      ReplaceNone("&quot;", '\'', "&#39;");
    }
  }

  /** The five passes are one simultaneous substitution. */
  lemma {:induction false} FivePassesAreOne(s: string)
    ensures Escape(s) == EscapeEach(s)
  {
    if s != "" {
      assert s == [s[0]] + s[1..];
      EscapeConcat([s[0]], s[1..]);
      EscapeOneChar(s[0]);
      FivePassesAreOne(s[1..]);
    }
  }

  /** What the five characters become; any other character stays. */
  lemma {:induction false} EscapesAre(c: char)
    ensures Escape([c]) ==
      match c
      case '&' => "&amp;"
      case '<' => "&lt;"
      case '>' => "&gt;"
      case '"' => "&quot;"
      case '\'' => "&#39;"
      case _ => [c]
  {
    hide Escape;
    EscapeOneChar(c);
  }

  /** No markup character is left, and every ampersand starts one of the five entities. */
  lemma {:induction false} EscapedIsClean(s: string, i: nat)
    requires i < |Escape(s)|
    ensures Escape(s)[i] !in "<>\"'"
    ensures Escape(s)[i] == '&' ==> exists e :: e in ENTITIES && e <= Escape(s)[i..]
  {
    FivePassesAreOne(s);
    EachIsClean(s, i);
  }

  lemma {:induction false} EachIsClean(s: string, i: nat)
    requires i < |EscapeEach(s)|
    ensures EscapeEach(s)[i] !in "<>\"'"
    ensures EscapeEach(s)[i] == '&' ==> exists e :: e in ENTITIES && e <= EscapeEach(s)[i..]
  {
    var head, tail := EscapeChar(s[0]), EscapeEach(s[1..]);
    if i < |head| {
      assert EscapeEach(s)[i] == head[i];
      if head[i] == '&' {
        assert head in ENTITIES && i == 0 && head <= EscapeEach(s)[0..];
      }
    } else {
      EachIsClean(s[1..], i - |head|);
      assert EscapeEach(s)[i..] == tail[i - |head|..];
    }
  }

  // ---------- Unescaping ----------

  /** Left to right: an entity at the front, or one character as it is. */
  function Unescape(s: string): string
    decreases |s|
  {
    if s == "" then ""
    else if "&amp;" <= s then "&" + Unescape(s[5..])
    else if "&lt;" <= s then "<" + Unescape(s[4..])
    else if "&gt;" <= s then ">" + Unescape(s[4..])
    else if "&quot;" <= s then "\"" + Unescape(s[6..])
    else if "&#39;" <= s then "'" + Unescape(s[5..])
    else [s[0]] + Unescape(s[1..])
  }

  lemma {:induction false} UnescapeChar(c: char, rest: string)
    ensures Unescape(EscapeChar(c) + rest) == [c] + Unescape(rest)
  {
    var s := EscapeChar(c) + rest;
    assert s[|EscapeChar(c)|..] == rest;
    assert EscapeChar(c) <= s;
    if c == '&' {
      assert "&amp;" <= s;
    } else if c == '<' {
      assert s[1] == 'l';
    } else if c == '>' {
      assert s[1] == 'g';
    } else if c == '"' {
      assert s[1] == 'q';
    } else if c == '\'' {
      assert s[1] == '#';
    } else {
      assert s[0] == c;
    }
  }

  /** Unescaping recovers every text. */
  lemma {:induction false} UnescapeEscape(s: string)
    ensures Unescape(Escape(s)) == s
  {
    FivePassesAreOne(s);
    UnescapeEach(s);
  }

  lemma {:induction false} UnescapeEach(s: string)
    ensures Unescape(EscapeEach(s)) == s
  {
    if s != "" {
      UnescapeChar(s[0], EscapeEach(s[1..]));
      UnescapeEach(s[1..]);
      assert [s[0]] + s[1..] == s;
    }
  }
}
