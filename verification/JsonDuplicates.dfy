/**
 What "a repeated key" means, without recursion on the scan: list every key occurrence of a tree with
 the object it belongs to, in text order, and keep those that occurred before.
 */
module JsonDuplicates {
  import opened Wrappers
  import opened JsonScanner
  import opened JsonLayout

  /** A key occurrence; an object is named by the path of indices that leads to it. */
  datatype Occurrence = Occurrence(owner: seq<nat>, key: Key)

  function Occurrences(decode: Decode, t: Tree, path: seq<nat>): seq<Occurrence> {
    match t
    case Object(_, members) => MemberOccurrences(decode, members, path, 0)
    case Array(_, elements) => ElementOccurrences(decode, elements, path, 0)
    case _ => []
  }

  function MemberOccurrences(decode: Decode, m: Members, path: seq<nat>, i: nat): seq<Occurrence> {
    [Occurrence(path, KeyOf(decode, m.key))] + Occurrences(decode, m.value, path + [i])
      + if m.Member? then MemberOccurrences(decode, m.rest, path, i + 1) else []
  }

  function ElementOccurrences(decode: Decode, e: Elements, path: seq<nat>, i: nat): seq<Occurrence> {
    Occurrences(decode, e.value, path + [i])
      + if e.Element? then ElementOccurrences(decode, e.rest, path, i + 1) else []
  }

  /** The keys of the occurrences that have an equal occurrence before them, in order. */
  function Repeats(occurrences: seq<Occurrence>): seq<Key> {
    if occurrences == [] then [] else
      var before, last := occurrences[..|occurrences| - 1], occurrences[|occurrences| - 1];
      Repeats(before) + if last in before then [last.key] else []
  }

  // ---------- The same list, counted from a set of occurrences already seen ----------

  function RepeatsAfter(seen: set<Occurrence>, occurrences: seq<Occurrence>): seq<Key>
    decreases |occurrences|
  {
    if occurrences == [] then [] else
      (if occurrences[0] in seen then [occurrences[0].key] else [])
        + RepeatsAfter(seen + {occurrences[0]}, occurrences[1..])
  }

  function SetOf(occurrences: seq<Occurrence>): set<Occurrence> {
    set o | o in occurrences
  }

  lemma {:induction false} RepeatsAfterConcat(seen: set<Occurrence>, a: seq<Occurrence>, b: seq<Occurrence>)
    ensures RepeatsAfter(seen, a + b) == RepeatsAfter(seen, a) + RepeatsAfter(seen + SetOf(a), b)
    decreases |a|
  {
    if a == [] {
      assert a + b == b && seen + SetOf(a) == seen;
    } else {
      RepeatsAfterConcat(seen + {a[0]}, a[1..], b);
      assert (a + b)[1..] == a[1..] + b;
      assert SetOf(a) == {a[0]} + SetOf(a[1..]);
      assert seen + {a[0]} + SetOf(a[1..]) == seen + SetOf(a);
    }
  }

  lemma {:induction false} RepeatsFromNothing(occurrences: seq<Occurrence>)
    ensures RepeatsAfter({}, occurrences) == Repeats(occurrences)
    decreases |occurrences|
  {
    if occurrences != [] {
      var before, last := occurrences[..|occurrences| - 1], occurrences[|occurrences| - 1];
      RepeatsFromNothing(before);
      assert occurrences == before + [last];
      RepeatsAfterConcat({}, before, [last]);
      assert RepeatsAfter(SetOf(before), [last]) == if last in before then [last.key] else [];
      assert {} + SetOf(before) == SetOf(before);
    }
  }

  // ---------- Objects do not see each other's keys ----------

  /** Nothing seen belongs to an object at or below `path`. */
  ghost predicate Clear(seen: set<Occurrence>, path: seq<nat>) {
    forall o :: o in seen ==> !(path <= o.owner)
  }

  /** Everything listed belongs to an object at or below `path`. */
  ghost predicate Below(occurrences: seq<Occurrence>, path: seq<nat>) {
    forall o :: o in occurrences ==> path <= o.owner
  }

  lemma {:induction false} OccurrencesBelow(decode: Decode, t: Tree, path: seq<nat>)
    ensures Below(Occurrences(decode, t, path), path)
    decreases t
  {
    match t
    case Object(_, members) => MemberOccurrencesBelow(decode, members, path, 0);
    case Array(_, elements) => ElementOccurrencesBelow(decode, elements, path, 0);
    case _ =>
  }

  lemma {:induction false} MemberOccurrencesBelow(decode: Decode, m: Members, path: seq<nat>, i: nat)
    ensures Below(MemberOccurrences(decode, m, path, i), path)
    decreases m
  {
    OccurrencesBelow(decode, m.value, path + [i]);
    if m.Member? {
      MemberOccurrencesBelow(decode, m.rest, path, i + 1);
    }
  }

  lemma {:induction false} ElementOccurrencesBelow(decode: Decode, e: Elements, path: seq<nat>, i: nat)
    ensures Below(ElementOccurrences(decode, e, path, i), path)
    decreases e
  {
    OccurrencesBelow(decode, e.value, path + [i]);
    if e.Element? {
      ElementOccurrencesBelow(decode, e.rest, path, i + 1);
    }
  }

  /** Nothing seen lies below a child of `path` from the `i`-th on. */
  ghost predicate ChildrenClear(seen: set<Occurrence>, path: seq<nat>, i: nat) {
    forall o :: o in seen ==> !(path < o.owner && o.owner[|path|] >= i)
  }

  /** The keys of the object at `path` among the occurrences seen. */
  ghost predicate KeysSeen(seen: set<Occurrence>, path: seq<nat>, keys: set<Key>) {
    forall key :: key in keys <==> Occurrence(path, key) in seen
  }

  lemma {:induction false} ThroughChild(path: seq<nat>, i: nat, p: seq<nat>)
    ensures path + [i] <= p ==> path < p && p[|path|] == i
  {
    if path + [i] <= p {
      assert p[..|path| + 1] == path + [i];
      assert p[..|path|] == p[..|path| + 1][..|path|];
    }
  }

  lemma {:induction false} ChildClear(seen: set<Occurrence>, path: seq<nat>, i: nat)
    requires ChildrenClear(seen, path, i)
    ensures Clear(seen, path + [i])
  {
    forall o | o in seen ensures !(path + [i] <= o.owner) {
      ThroughChild(path, i, o.owner);
    }
  }

  lemma {:induction false} NextChildClear(seen: set<Occurrence>, child: seq<Occurrence>, path: seq<nat>, i: nat)
    requires ChildrenClear(seen, path, i) && Below(child, path + [i])
    ensures ChildrenClear(seen + SetOf(child), path, i + 1)
  {
    forall o | o in seen + SetOf(child) ensures !(path < o.owner && o.owner[|path|] >= i + 1) {
      ThroughChild(path, i, o.owner);
    }
  }

  lemma {:induction false} ChildKeepsKeys(seen: set<Occurrence>, child: seq<Occurrence>, path: seq<nat>, i: nat,
      keys: set<Key>)
    requires KeysSeen(seen, path, keys) && Below(child, path + [i])
    ensures KeysSeen(seen + SetOf(child), path, keys)
  {
    assert !(path + [i] <= path);
    forall key ensures Occurrence(path, key) !in child {
      assert Occurrence(path, key).owner == path;
    }
  }

  /** The recursive list is the filtered list, whatever has been seen elsewhere. */
  lemma {:induction false} DuplicatesAreRepeats(decode: Decode, t: Tree, path: seq<nat>, seen: set<Occurrence>)
    requires Clear(seen, path)
    ensures Duplicates(decode, t) == RepeatsAfter(seen, Occurrences(decode, t, path))
    decreases t
  {
    assert forall o :: o in seen && path < o.owner ==> path <= o.owner;
    match t
    case Object(_, members) => MemberRepeats(decode, members, path, 0, seen, {});
    case Array(_, elements) => ElementRepeats(decode, elements, path, 0, seen);
    case _ =>
  }

  lemma {:induction false} MemberRepeats(decode: Decode, m: Members, path: seq<nat>, i: nat,
      seen: set<Occurrence>, keys: set<Key>)
    requires ChildrenClear(seen, path, i) && KeysSeen(seen, path, keys)
    ensures MemberDuplicates(decode, m, keys) == RepeatsAfter(seen, MemberOccurrences(decode, m, path, i))
    decreases m
  {
    var key := KeyOf(decode, m.key);
    var own := Occurrence(path, key);
    var child := Occurrences(decode, m.value, path + [i]);
    var rest := if m.Member? then MemberOccurrences(decode, m.rest, path, i + 1) else [];
    var after := seen + {own};
    assert ChildrenClear(after, path, i) && KeysSeen(after, path, keys + {key});
    ChildClear(after, path, i);
    DuplicatesAreRepeats(decode, m.value, path + [i], after);
    OccurrencesBelow(decode, m.value, path + [i]);
    RepeatsSplit(seen, own, child, rest);
    if m.Member? {
      NextChildClear(after, child, path, i);
      ChildKeepsKeys(after, child, path, i, keys + {key});
      MemberRepeats(decode, m.rest, path, i + 1, after + SetOf(child), keys + {key});
    }
  }

  lemma {:induction false} RepeatsSplit(seen: set<Occurrence>, own: Occurrence, child: seq<Occurrence>,
      rest: seq<Occurrence>)
    ensures RepeatsAfter(seen, [own] + child + rest)
         == (if own in seen then [own.key] else []) + RepeatsAfter(seen + {own}, child)
            + RepeatsAfter(seen + {own} + SetOf(child), rest)
  {
    assert ([own] + child + rest)[1..] == child + rest;
    RepeatsAfterConcat(seen + {own}, child, rest);
  }

  lemma {:induction false} ElementRepeats(decode: Decode, e: Elements, path: seq<nat>, i: nat, seen: set<Occurrence>)
    requires ChildrenClear(seen, path, i)
    ensures ElementDuplicates(decode, e) == RepeatsAfter(seen, ElementOccurrences(decode, e, path, i))
    decreases e
  {
    var child := Occurrences(decode, e.value, path + [i]);
    ChildClear(seen, path, i);
    DuplicatesAreRepeats(decode, e.value, path + [i], seen);
    OccurrencesBelow(decode, e.value, path + [i]);
    if e.Element? {
      NextChildClear(seen, child, path, i);
      ElementRepeats(decode, e.rest, path, i + 1, seen + SetOf(child));
      RepeatsAfterConcat(seen, child, ElementOccurrences(decode, e.rest, path, i + 1));
    } else {
      assert ElementOccurrences(decode, e, path, i) == child;
    }
  }

  /** Of any tree, however laid out, the scanner reports one entry per repeated key occurrence, in text order. */
  lemma {:induction false} ScanReportsRepeats(x: Input, t: Tree, trail: string)
    requires Lawful(x.decode) && Layout(x.decode, x.source, t, trail)
    ensures x.ScanText() == Ok(Repeats(Occurrences(x.decode, t, [])))
  {
    ScansLayout(x, t, trail);
    DuplicatesAreRepeats(x.decode, t, [], {});
    RepeatsFromNothing(Occurrences(x.decode, t, []));
  }
}
