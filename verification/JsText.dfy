/** JavaScript text primitives that several components use. */
module JsText {

  /** The class `\s` of a JavaScript regular expression. */
  predicate IsSpace(c: char) {
    var n := c as int;
    9 <= n <= 13 || n == 0x20 || n == 0xa0 || n == 0x1680 || 0x2000 <= n <= 0x200a
      || n == 0x2028 || n == 0x2029 || n == 0x202f || n == 0x205f || n == 0x3000 || n == 0xfeff
  }

  function SkipSpace(source: string, p: nat): (q: nat)
    requires p <= |source|
    ensures p <= q <= |source|
    decreases |source| - p
  {
    if p < |source| && IsSpace(source[p]) then SkipSpace(source, p + 1) else p
  }

  /** ECMAScript's white space and line terminators, one by one. */
  lemma {:induction false} SpacesAre(c: char)
    ensures IsSpace(c) <==> c as int in {
      0x9, 0xa, 0xb, 0xc, 0xd, 0x20, 0xa0, 0x1680, 0x2000, 0x2001, 0x2002, 0x2003, 0x2004, 0x2005, 0x2006, 0x2007,
      0x2008, 0x2009, 0x200a, 0x2028, 0x2029, 0x202f, 0x205f, 0x3000, 0xfeff
    }
  {
  }

  function LowerChar(c: char): char {
    if 'A' <= c <= 'Z' then (c as int + 32) as char else c
  }

  /** `text.toLowerCase()` on ASCII letters. */
  function Lower(s: string): (lower: string)
    ensures |lower| == |s| && forall i :: 0 <= i < |s| ==> lower[i] == LowerChar(s[i])
  {
    if s == "" then "" else [LowerChar(s[0])] + Lower(s[1..])
  }

  /** `text.split(sep)`. */
  function Split(s: string, sep: char): (tokens: seq<string>)
    ensures |tokens| > 0
  {
    if s == "" then [""] else
      var rest := Split(s[1..], sep);
      if s[0] == sep then [""] + rest else [[s[0]] + rest[0]] + rest[1..]
  }

  /** `tokens.join(sep)`. */
  function Join(tokens: seq<string>, sep: char): string {
    if |tokens| == 0 then "" else if |tokens| == 1 then tokens[0]
    else tokens[0] + [sep] + Join(tokens[1..], sep)
  }

  /** Joining what splitting gives is the text again, and no token holds the separator. */
  lemma {:induction false} JoinSplit(s: string, sep: char)
    ensures Join(Split(s, sep), sep) == s
    ensures forall i :: 0 <= i < |Split(s, sep)| ==> sep !in Split(s, sep)[i]
  {
    if s != "" {
      JoinSplit(s[1..], sep);
      var rest := Split(s[1..], sep);
      if s[0] == sep {
        assert ([""] + rest)[1..] == rest;
      } else {
        var tokens := [[s[0]] + rest[0]] + rest[1..];
        assert tokens[1..] == rest[1..];
        assert Join(tokens, sep) == [s[0]] + Join(rest, sep);
      }
    }
  }

  lemma {:induction false} SplitPrefix(token: string, rest: string, sep: char)
    requires sep !in token
    ensures Split(token + rest, sep) == [token + Split(rest, sep)[0]] + Split(rest, sep)[1..]
  {
    if token == "" {
      assert token + rest == rest && token + Split(rest, sep)[0] == Split(rest, sep)[0];
    } else {
      SplitPrefix(token[1..], rest, sep);
      assert (token + rest)[1..] == token[1..] + rest;
      var tokens := Split(rest, sep);
      assert [token[0]] + (token[1..] + tokens[0]) == token + tokens[0];
    }
  }

  lemma {:induction false} SplitJoin(tokens: seq<string>, sep: char)
    requires tokens != [] && forall i :: 0 <= i < |tokens| ==> sep !in tokens[i]
    ensures Split(Join(tokens, sep), sep) == tokens
  {
    if |tokens| == 1 {
      SplitPrefix(tokens[0], "", sep);
      assert tokens[0] + "" == tokens[0];
    } else {
      SplitJoin(tokens[1..], sep);
      var tail := [sep] + Join(tokens[1..], sep);
      assert tail[1..] == Join(tokens[1..], sep);
      assert Split(tail, sep) == [""] + tokens[1..];
      SplitPrefix(tokens[0], tail, sep);
      assert tokens[0] + tail == Join(tokens, sep);
      assert tokens[0] + Split(tail, sep)[0] == tokens[0];
      assert Split(tail, sep)[1..] == tokens[1..];
    }
  }
}

/** A JavaScript `Set` as the list of its elements in insertion order. */
module OrderedSet {

  function Add<T(==)>(elements: seq<T>, x: T): seq<T> {
    if x in elements then elements else elements + [x]
  }

  /** `new Set(list)`. */
  function Of<T(==)>(list: seq<T>): seq<T> {
    if list == [] then [] else Add(Of(list[..|list| - 1]), list[|list| - 1])
  }

  ghost predicate NoRepeats<T>(elements: seq<T>) {
    forall i, j :: 0 <= i < j < |elements| ==> elements[i] != elements[j]
  }

  lemma {:induction false} NoRepeatsBoth<T>(a: seq<T>, b: seq<T>)
    requires NoRepeats(a) && NoRepeats(b) && forall x :: x in b ==> x !in a
    ensures NoRepeats(a + b)
  {
    forall i, j | 0 <= i < j < |a + b| ensures (a + b)[i] != (a + b)[j] {
      if i < |a| <= j {
        assert a[i] in a && b[j - |a|] in b;
      }
    }
  }

  ghost predicate FirstAt<T>(list: seq<T>, i: int, x: T) {
    0 <= i < |list| && list[i] == x && forall j :: 0 <= j < i ==> list[j] != x
  }

  /** The elements of `list`, each once, in the order of their first occurrences. */
  ghost predicate InFirstOrder<T(!new)>(elements: seq<T>, list: seq<T>) {
    && NoRepeats(elements)
    && (forall x :: x in elements <==> x in list)
    && (forall i, j, p, q ::
          0 <= i < j < |elements| && FirstAt(list, p, elements[i]) && FirstAt(list, q, elements[j]) ==> p < q)
  }

  lemma {:induction false} OfElements<T>(list: seq<T>)
    ensures NoRepeats(Of(list))
    ensures forall x :: x in Of(list) <==> x in list
  {
    if list != [] {
      var n := |list| - 1;
      OfElements(list[..n]);
      assert list == list[..n] + [list[n]];
    }
  }

  lemma {:induction false} FirstInLonger<T>(list: seq<T>, p: nat, x: T)
    requires list != [] && FirstAt(list, p, x) && x in list[..|list| - 1]
    ensures FirstAt(list[..|list| - 1], p, x)
  {
    var init := list[..|list| - 1];
    var k :| 0 <= k < |init| && init[k] == x;
    assert list[k] == x;
  }

  /** A set made from a list keeps its elements in the order in which they first occur. */
  lemma {:induction false} OfInFirstOrder<T(!new)>(list: seq<T>)
    ensures InFirstOrder(Of(list), list)
  {
    OfElements(list);
    if list != [] {
      var n := |list| - 1;
      var before, all := Of(list[..n]), Of(list);
      OfInFirstOrder(list[..n]);
      assert list == list[..n] + [list[n]];
      forall i, j, p, q | 0 <= i < j < |all| && FirstAt(list, p, all[i]) && FirstAt(list, q, all[j]) ensures p < q {
        assert all[i] in before && before[i] == all[i];
        FirstInLonger(list, p, all[i]);
        if j < |before| {
          assert all[j] in before;
          FirstInLonger(list, q, all[j]);
        }
      }
    }
  }
}
