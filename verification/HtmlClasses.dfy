/**
 Class policies for HTML translations: how a policy is built from the supported classes and a hook's
 additions, what filtering a class attribute by a policy leaves, and how filtering by one policy
 composes with filtering by another.
 */
module HtmlClasses {
  import opened Wrappers
  import opened JsText
  import opened OrderedSet

  /** The classes allowed for each tag. */
  type Policy = map<string, seq<string>>

  // ---------- The class attribute ----------

  /** The first whitespace character, or the end. */
  function WordEnd(s: string, p: nat): (q: nat)
    requires p <= |s|
    ensures p <= q <= |s| && (q < |s| ==> IsSpace(s[q])) && forall j :: p <= j < q ==> !IsSpace(s[j])
    decreases |s| - p
  {
    if p < |s| && !IsSpace(s[p]) then WordEnd(s, p + 1) else p
  }

  /** `text.split(/\s+/)`: space at either end gives an empty token there. */
  function Words(s: string): (words: seq<string>)
    ensures words != []
    decreases |s|
  {
    var end := WordEnd(s, 0);
    if end == |s| then [s] else [s[..end]] + Words(s[SkipSpace(s, end)..])
  }

  function Keep(tokens: seq<string>, allowed: set<string>): seq<string> {
    if tokens == [] then [] else
      var last := tokens[|tokens| - 1];
      var before := Keep(tokens[..|tokens| - 1], allowed);
      if last in allowed then before + [last] else before
  }

  function AllowedFor(policy: Policy, tag: string): set<string> {
    if Lower(tag) in policy then set c | c in policy[Lower(tag)] else {}
  }

  /** The tokens of an attribute; one that is missing reads as empty. */
  function TokensOf(value: Option<string>): seq<string> {
    Words(if value.Some? then value.value else "")
  }

  function KeptTokens(value: Option<string>, allowed: set<string>): seq<string> {
    Of(Keep(TokensOf(value), allowed))
  }

  function FilterClasses(value: Option<string>, tag: string, policy: Policy): string {
    Join(KeptTokens(value, AllowedFor(policy, tag)), ' ')
  }

  // ---------- What filtering keeps ----------

  /** The tokens of `list` that are allowed, each once, in the order of their first occurrences. */
  ghost predicate AreFirstOccurrences(kept: seq<string>, list: seq<string>, allowed: set<string>) {
    && NoRepeats(kept)
    && (forall token :: token in kept <==> token in list && token in allowed)
    && (forall i, j, p, q :: 0 <= i < j < |kept| && FirstAt(list, p, kept[i]) && FirstAt(list, q, kept[j]) ==> p < q)
  }

  lemma {:induction false} KeepsAllowed(tokens: seq<string>, allowed: set<string>, token: string)
    ensures token in Keep(tokens, allowed) <==> token in tokens && token in allowed
  {
    if tokens != [] {
      var n := |tokens| - 1;
      KeepsAllowed(tokens[..n], allowed, token);
      assert tokens == tokens[..n] + [tokens[n]];
    }
  }

  lemma {:induction false} KeepInOrder(tokens: seq<string>, allowed: set<string>)
    ensures AreFirstOccurrences(Of(Keep(tokens, allowed)), tokens, allowed)
  {
    var kept := Of(Keep(tokens, allowed));
    OfElements(Keep(tokens, allowed));
    forall token ensures token in kept <==> token in tokens && token in allowed {
      KeepsAllowed(tokens, allowed, token);
    }
    if tokens != [] {
      var n := |tokens| - 1;
      var before := Keep(tokens[..n], allowed);
      KeepInOrder(tokens[..n], allowed);
      if tokens[n] in allowed {
        assert (before + [tokens[n]])[..|before|] == before;
        assert kept == Add(Of(before), tokens[n]);
      } else {
        assert kept == Of(before);
      }
      assert tokens == tokens[..n] + [tokens[n]];
      forall i, j, p, q | 0 <= i < j < |kept| && FirstAt(tokens, p, kept[i]) && FirstAt(tokens, q, kept[j])
        ensures p < q
      {
        assert kept[i] in Of(before) && Of(before)[i] == kept[i];
        FirstInLonger(tokens, p, kept[i]);
        if j < |Of(before)| {
          assert kept[j] in Of(before);
          FirstInLonger(tokens, q, kept[j]);
        }
      }
    }
  }

  // ---------- Filtering twice ----------

  /** What splitting at white space can give: no space in a token, and empty tokens only at the ends. */
  ghost predicate AreWords(tokens: seq<string>) {
    forall i :: 0 <= i < |tokens| ==>
      (forall j :: 0 <= j < |tokens[i]| ==> !IsSpace(tokens[i][j]))
      && (tokens[i] == "" ==> i == 0 || i == |tokens| - 1)
  }

  lemma {:induction false} SkipStops(s: string, p: nat)
    requires p <= |s|
    ensures SkipSpace(s, p) < |s| ==> !IsSpace(s[SkipSpace(s, p)])
    decreases |s| - p
  {
    if p < |s| && IsSpace(s[p]) {
      SkipStops(s, p + 1);
    }
  }

  lemma {:induction false} SplitGivesWords(s: string)
    ensures AreWords(Words(s))
    ensures s != "" && !IsSpace(s[0]) ==> Words(s)[0] != ""
    decreases |s|
  {
    var end := WordEnd(s, 0);
    if end < |s| {
      var next := SkipSpace(s, end);
      assert next > end;
      SkipStops(s, end);
      SplitGivesWords(s[next..]);
      if next == |s| {
        assert Words(s[next..]) == [""];
      }
    }
  }

  lemma {:induction false} KeepIsWords(tokens: seq<string>, allowed: set<string>)
    requires AreWords(tokens)
    ensures AreWords(Keep(tokens, allowed))
  {
    if tokens != [] {
      var n := |tokens| - 1;
      KeepIsFront(tokens[..n], allowed);
    }
  }

  /** Words without an empty one at the end. */
  ghost predicate AreFront(tokens: seq<string>) {
    forall i :: 0 <= i < |tokens| ==>
      (forall j :: 0 <= j < |tokens[i]| ==> !IsSpace(tokens[i][j])) && (tokens[i] == "" ==> i == 0)
  }

  lemma {:induction false} KeepIsFront(tokens: seq<string>, allowed: set<string>)
    requires AreFront(tokens)
    ensures AreFront(Keep(tokens, allowed))
  {
    if tokens != [] {
      var n := |tokens| - 1;
      KeepIsFront(tokens[..n], allowed);
      if n == 0 {
        assert Keep(tokens[..n], allowed) == [];
      }
    }
  }

  lemma {:induction false} OfIsFront(list: seq<string>)
    requires AreFront(list)
    ensures AreFront(Of(list))
  {
    if list != [] {
      OfIsFront(list[..|list| - 1]);
      if |list| == 1 {
        assert Of(list[..0]) == [];
      }
    }
  }

  lemma {:induction false} OfIsWords(list: seq<string>)
    requires AreWords(list)
    ensures AreWords(Of(list))
  {
    if list != [] {
      OfIsFront(list[..|list| - 1]);
    }
  }

  /** Joining words with a space and splitting at white space gives them back. */
  lemma {:induction false} WordsOfJoin(tokens: seq<string>)
    requires tokens != [] && AreWords(tokens)
    ensures Words(Join(tokens, ' ')) == tokens
  {
    var s := Join(tokens, ' ');
    if |tokens| == 1 {
      assert WordEnd(s, 0) == |s|;
    } else {
      var rest := Join(tokens[1..], ' ');
      var n := |tokens[0]|;
      assert forall j :: 0 <= j < n ==> s[j] == tokens[0][j];
      assert s[n] == ' ' && WordEnd(s, 0) == n;
      assert AreWords(tokens[1..]) by {
        assert tokens[1] == "" ==> |tokens| == 2;
      }
      WordsOfJoin(tokens[1..]);
      assert s[n + 1..] == rest;
      assert SkipSpace(s, n) == n + 1 by {
        if tokens[1] != "" {
          assert s[n + 1] == rest[0] == tokens[1][0];
        }
      }
      assert s[..n] == tokens[0] && [tokens[0]] + tokens[1..] == tokens;
    }
  }

  lemma {:induction false} KeptReadsBack(value: Option<string>, allowed: set<string>)
    ensures var kept := KeptTokens(value, allowed); Words(Join(kept, ' ')) == if kept == [] then [""] else kept
  {
    SplitGivesWords(if value.Some? then value.value else "");
    KeepIsWords(TokensOf(value), allowed);
    OfIsWords(Keep(TokensOf(value), allowed));
    if KeptTokens(value, allowed) != [] {
      WordsOfJoin(KeptTokens(value, allowed));
    }
  }

  /** Filtering leaves exactly the allowed tokens, first occurrences in order. */
  lemma {:induction false} FilterKeepsAllowed(value: Option<string>, tag: string, policy: Policy)
    ensures exists kept ::
      AreFirstOccurrences(kept, TokensOf(value), AllowedFor(policy, tag))
      && FilterClasses(value, tag, policy) == Join(kept, ' ')
      && Words(FilterClasses(value, tag, policy)) == if kept == [] then [""] else kept
  {
    KeepInOrder(TokensOf(value), AllowedFor(policy, tag));
    var kept := KeptTokens(value, AllowedFor(policy, tag));
    assert AreFirstOccurrences(kept, TokensOf(value), AllowedFor(policy, tag));
    KeptReadsBack(value, AllowedFor(policy, tag));
  }

  lemma {:induction false} KeepTwice(tokens: seq<string>, p: set<string>, q: set<string>)
    ensures Keep(Keep(tokens, p), q) == Keep(tokens, p * q)
  {
    if tokens != [] {
      var n := |tokens| - 1;
      KeepTwice(tokens[..n], p, q);
      var before := Keep(tokens[..n], p);
      assert (before + [tokens[n]])[..|before|] == before;
    }
  }

  lemma {:induction false} KeepOf(list: seq<string>, q: set<string>)
    ensures Keep(Of(list), q) == Of(Keep(list, q))
  {
    if list != [] {
      var n := |list| - 1;
      var of, kept := Of(list[..n]), Keep(list[..n], q);
      KeepOf(list[..n], q);
      OfElements(list[..n]);
      OfElements(kept);
      KeepsAllowed(list[..n], q, list[n]);
      assert (of + [list[n]])[..|of|] == of;
      assert (kept + [list[n]])[..|kept|] == kept;
    }
  }

  lemma {:induction false} OfTwice(list: seq<string>)
    ensures Of(Of(list)) == Of(list)
  {
    if list != [] {
      var n := |list| - 1;
      OfTwice(list[..n]);
      OfElements(list[..n]);
      var of := Of(list[..n]);
      assert (of + [list[n]])[..|of|] == of;
    }
  }

  lemma {:induction false} KeptTwice(value: Option<string>, p: set<string>, q: set<string>)
    ensures Join(KeptTokens(Some(Join(KeptTokens(value, p), ' ')), q), ' ') == Join(KeptTokens(value, p * q), ' ')
  {
    var words, kept := TokensOf(value), KeptTokens(value, p);
    KeptReadsBack(value, p);
    KeepOf(Keep(words, p), q);
    KeepTwice(words, p, q);
    if kept == [] {
      assert [""][..0] == [];
    } else {
      OfTwice(Keep(words, p * q));
    }
  }

  /** Filtering by one policy and then by another is filtering once by what both allow, whatever the policies. */
  lemma {:induction false} FilterTwiceIsCommon(value: Option<string>, tag: string, p: Policy, q: Policy, common: Policy)
    requires AllowedFor(common, tag) == AllowedFor(p, tag) * AllowedFor(q, tag)
    ensures FilterClasses(Some(FilterClasses(value, tag, p)), tag, q) == FilterClasses(value, tag, common)
  {
    KeptTwice(value, AllowedFor(p, tag), AllowedFor(q, tag));
  }

  // ---------- Tags and words ----------

  /** The same letter, in either case. */
  predicate SameLetter(a: char, b: char) {
    a == b || ('A' <= a <= 'Z' && b as int == a as int + 32) || ('A' <= b <= 'Z' && a as int == b as int + 32)
  }

  /** `TH` and `th` are filtered alike: the case of a tag does not matter. */
  lemma {:induction false} TagCaseDoesNotMatter(value: Option<string>, a: string, b: string, policy: Policy)
    requires |a| == |b| && forall i :: 0 <= i < |a| ==> SameLetter(a[i], b[i])
    ensures FilterClasses(value, a, policy) == FilterClasses(value, b, policy)
  {
    assert Lower(a) == Lower(b);
  }

  /** What a tag is allowed is the policy's list for its lower-case name, and nothing when there is none. */
  lemma {:induction false} AllowedExactly(policy: Policy, tag: string, name: string)
    requires forall i :: 0 <= i < |tag| ==> !('A' <= tag[i] <= 'Z')
    ensures name in AllowedFor(policy, tag) <==> tag in policy && name in policy[tag]
  {
    assert Lower(tag) == tag;
  }

  lemma {:induction false} WordEndsAt(word: string, rest: string, p: nat)
    requires p <= |word| && (forall j :: 0 <= j < |word| ==> !IsSpace(word[j])) && (rest == "" || IsSpace(rest[0]))
    ensures WordEnd(word + rest, p) == |word|
    decreases |word| - p
  {
    if p < |word| {
      WordEndsAt(word, rest, p + 1);
    }
  }

  lemma {:induction false} SkipsGap(source: string, p: nat, end: nat)
    requires p <= end <= |source| && (forall j :: p <= j < end ==> IsSpace(source[j]))
    requires end < |source| ==> !IsSpace(source[end])
    ensures SkipSpace(source, p) == end
    decreases end - p
  {
    if p < end {
      SkipsGap(source, p + 1, end);
    }
  }

  /** A text is one word up to its first run of white space, and then the words of what follows the run. */
  lemma {:induction false} WordsSplitAtGaps(word: string, gap: string, rest: string)
    requires forall j :: 0 <= j < |word| ==> !IsSpace(word[j])
    requires gap != "" && (forall j :: 0 <= j < |gap| ==> IsSpace(gap[j])) && (rest == "" || !IsSpace(rest[0]))
    ensures Words(word) == [word] && Words(word + gap + rest) == [word] + Words(rest)
  {
    var s := word + gap + rest;
    WordEndsAt(word, "", 0);
    assert word + "" == word && s == word + (gap + rest);
    WordEndsAt(word, gap + rest, 0);
    SkipsGap(s, |word|, |word + gap|);
    assert s[..|word|] == word && s[|word + gap|..] == rest;
  }

  // ---------- Building a policy ----------

  const TAGS := [
    "a", "p", "br", "strong", "em", "u", "i", "b", "s", "span", "div",
    "ul", "ol", "li", "h1", "h2", "h3", "h4", "h5", "h6",
    "blockquote", "code", "pre", "hr",
    "table", "thead", "tbody", "tfoot", "tr", "th", "td", "colgroup", "col"
  ]

  const ALERTS := [
    "alert", "alert-primary", "alert-secondary", "alert-success",
    "alert-danger", "alert-warning", "alert-info", "alert-light", "alert-dark"
  ]

  const COLORS := [
    "table-primary", "table-secondary", "table-success", "table-danger",
    "table-warning", "table-info", "table-light", "table-dark", "table-active"
  ]

  function Defaults(tag: string): seq<string> {
    if tag == "div" || tag == "p" then ALERTS
    else if tag == "table" then
      ["table", "table-bordered", "table-borderless", "table-sm", "table-striped", "table-hover"] + COLORS
    else if tag == "tbody" then ["table-group-divider"] + COLORS
    else if tag == "thead" || tag == "tfoot" || tag == "tr" || tag == "th" || tag == "td" then COLORS
    else []
  }

  /** A hook's addition for a tag: a list of strings and other values, or something that is no list. */
  datatype Addition = Class(name: string) | NoString
  datatype Extra = Listed(values: seq<Addition>) | NoList

  predicate IsNameStart(c: char) {
    'a' <= c <= 'z' || 'A' <= c <= 'Z' || c == '_'
  }

  /** The pattern `^[a-zA-Z_][a-zA-Z0-9_-]*$`. */
  predicate IsClassName(s: string) {
    s != "" && IsNameStart(s[0])
      && forall i :: 1 <= i < |s| ==> IsNameStart(s[i]) || '0' <= s[i] <= '9' || s[i] == '-'
  }

  /** Letters, digits, underscores and hyphens by their code points; no digit or hyphen in front. */
  lemma {:induction false} ClassNamesAre(s: string)
    ensures IsClassName(s) <==>
      && s != "" && !(48 <= s[0] as int <= 57) && s[0] as int != 45
      && forall i :: 0 <= i < |s| ==>
           var n := s[i] as int; 65 <= n <= 90 || 97 <= n <= 122 || n == 95 || 48 <= n <= 57 || n == 45
  {
  }

  function ValidNames(values: seq<Addition>): seq<string> {
    if values == [] then [] else
      var last := values[|values| - 1];
      var before := ValidNames(values[..|values| - 1]);
      if last.Class? && IsClassName(last.name) then before + [last.name] else before
  }

  function Added(additions: Option<map<string, Extra>>, tag: string): seq<string> {
    if additions.Some? && tag in additions.value && additions.value[tag].Listed?
    then ValidNames(additions.value[tag].values) else []
  }

  method GetTranslationHtmlClasses(additions: Option<map<string, Extra>>) returns (policy: Policy)
    ensures forall tag :: tag in policy <==> tag in TAGS
    ensures forall tag :: tag in TAGS ==> policy[tag] == Of(Defaults(tag) + Added(additions, tag))
  {
    hide TAGS, Defaults;
    policy := map[];
    for i := 0 to |TAGS|
      invariant forall tag :: tag in policy <==> tag in TAGS[..i]
      invariant forall tag :: tag in policy ==> policy[tag] == Of(Defaults(tag) + Added(additions, tag))
    {
      var tag := TAGS[i];
      var extra := if additions.Some? && tag in additions.value then additions.value[tag] else NoList;
      var names := if extra.Listed? then ValidNames(extra.values) else [];
      policy := policy[tag := Of(Defaults(tag) + names)];
      assert TAGS[..i + 1] == TAGS[..i] + [tag];
    }
    assert TAGS[..|TAGS|] == TAGS;
  }

  /** Additions are taken in the order in which they are listed. */
  lemma {:induction false} ValidNamesInOrder(a: seq<Addition>, b: seq<Addition>)
    ensures ValidNames(a + b) == ValidNames(a) + ValidNames(b)
    decreases |b|
  {
    if b == [] {
      assert a + b == a;
    } else {
      var n := |b| - 1;
      ValidNamesInOrder(a, b[..n]);
      assert (a + b)[..|a| + n] == a + b[..n];
    }
  }

  lemma {:induction false} ValidNamesAre(values: seq<Addition>, name: string)
    ensures name in ValidNames(values) <==> Class(name) in values && IsClassName(name)
  {
    if values != [] {
      var n := |values| - 1;
      ValidNamesAre(values[..n], name);
      assert values == values[..n] + [values[n]];
    }
  }

  /** A hook lists the name for the tag, as a string that is a class name. */
  predicate IsAdded(additions: Option<map<string, Extra>>, tag: string, name: string) {
    additions.Some? && tag in additions.value && additions.value[tag].Listed?
      && Class(name) in additions.value[tag].values && IsClassName(name)
  }

  /** A built list has each class once: the defaults of the tag, and the well-formed strings a hook lists for it. */
  lemma {:induction false} BuiltListIs(tag: string, additions: Option<map<string, Extra>>, name: string)
    ensures var built := Of(Defaults(tag) + Added(additions, tag));
      && NoRepeats(built)
      && (name in built <==> name in Defaults(tag) || IsAdded(additions, tag, name))
  {
    hide Defaults, IsClassName;
    OfElements(Defaults(tag) + Added(additions, tag));
    if additions.Some? && tag in additions.value && additions.value[tag].Listed? {
      ValidNamesAre(additions.value[tag].values, name);
    }
  }
}
