/**
 The duplicate-key scanner of `scripts/verify-translations.js`: a recursive-descent pass over JSON
 text with one cursor, which reports every key that repeats an earlier key of its own object.
 */
module JsonScanner {
  import opened Wrappers
  import opened SeqFacts
  import opened JsText

  /** A decoded key: UTF-16 code units. */
  type Key = seq<nat>

  datatype ScanError =
    | UnterminatedString
    | InvalidString
    | ExpectedColon(key: Key)
    | ExpectedMemberComma(key: Key)
    | ExpectedElementComma
    | UnterminatedObject
    | UnterminatedArray
    | UnexpectedContent

  // ---------- Characters ----------

  /** The class that ends a number or a word: `[\s,\]}]`. */
  predicate IsStop(c: char) {
    IsSpace(c) || c == ',' || c == ']' || c == '}'
  }

  /** `source[p] === c`, false past the end of the text. */
  predicate CharAt(source: string, p: nat, c: char) {
    p < |source| && source[p] == c
  }

  // ---------- The scan as a function of the text and the cursor ----------

  /** The position after the closing quote of a string whose next character is at `p`. */
  function StringEnd(source: string, p: nat): (end: Option<nat>)
    ensures end.Some? ==> p < end.value <= |source|
    decreases |source| - p
  {
    if p >= |source| then None
    else if source[p] == '\\' then StringEnd(source, p + 2)
    else if source[p] == '"' then Some(p + 1)
    else StringEnd(source, p + 1)
  }

  datatype Token = Token(end: nat, key: Key)

  function AtomEnd(source: string, p: nat): (q: nat)
    requires p <= |source|
    ensures p <= q <= |source|
    decreases |source| - p
  {
    if p < |source| && !IsStop(source[p]) then AtomEnd(source, p + 1) else p
  }

  /** A successful scan: where the cursor stands, and the repeated keys in text order. */
  datatype Scanned = Scanned(end: nat, duplicates: seq<Key>)

  type ScanResult = Result<Scanned, ScanError>

  /** One turn of a loop: the repeated keys it reports, where it ends, and whether it closed the container. */
  datatype Turn = Turn(key: Key, duplicates: seq<Key>, end: nat, closed: bool)

  function Prepend(duplicates: seq<Key>, r: ScanResult): (r': ScanResult)
    ensures r'.Ok? <==> r.Ok?
    ensures r.Ok? ==> r'.value == Scanned(r.value.end, duplicates + r.value.duplicates)
    ensures r.Err? ==> r'.error == r.error
  {
    if r.Err? then r else Ok(Scanned(r.value.end, duplicates + r.value.duplicates))
  }

  lemma {:induction false} PrependNothing(r: ScanResult)
    ensures Prepend([], r) == r
  {
    if r.Ok? {
      assert [] + r.value.duplicates == r.value.duplicates;
    }
  }

  lemma {:induction false} PrependTwice(first: seq<Key>, second: seq<Key>, r: ScanResult)
    ensures Prepend(first, Prepend(second, r)) == Prepend(first + second, r)
  {
    if r.Ok? {
      assert first + (second + r.value.duplicates) == first + second + r.value.duplicates;
    }
  }

  /** `JSON.parse` of a slice that ends in a quote: the decoded key, or nothing when it throws. */
  type Decode = string -> Option<Key>

  /** The text to scan, and the decoder of its string tokens. */
  datatype Input = Input(source: string, decode: Decode) {
    function ScanString(p: nat): (r: Result<Token, ScanError>)
      requires p <= |source|
      ensures r.Ok? ==> p + 1 < r.value.end <= |source|
    {
      var end := StringEnd(source, p + 1);
      if end.None? then Err(UnterminatedString) else
        var key := decode(source[p..end.value]);
        if key.None? then Err(InvalidString) else Ok(Token(end.value, key.value))
    }

    function ScanValue(p: nat): (r: ScanResult)
      requires p <= |source|
      ensures r.Ok? ==> p <= r.value.end <= |source|
      decreases |source| - p, 2
    {
      var q := SkipSpace(source, p);
      if CharAt(source, q, '{') then ScanObject(q)
      else if CharAt(source, q, '[') then ScanArray(q)
      else if CharAt(source, q, '"') then
        var token :- ScanString(q);
        Ok(Scanned(token.end, []))
      else Ok(Scanned(AtomEnd(source, q), []))
    }

    function ScanObject(p: nat): (r: ScanResult)
      requires p < |source|
      ensures r.Ok? ==> p < r.value.end <= |source|
      decreases |source| - p, 1
    {
      var q := SkipSpace(source, p + 1);
      if CharAt(source, q, '}') then Ok(Scanned(q + 1, [])) else ScanMembers(q, {})
    }

    /** The key of a member, up to and including its colon. */
    function ScanKey(p: nat): (r: Result<Token, ScanError>)
      requires p <= |source|
      ensures r.Ok? ==> p + 1 < r.value.end <= |source|
    {
      var token :- ScanString(SkipSpace(source, p));
      var q := SkipSpace(source, token.end);
      if CharAt(source, q, ':') then Ok(Token(q + 1, token.key)) else Err(ExpectedColon(token.key))
    }

    /** One member of an object, up to and including the comma or the brace after it. */
    function ScanMember(p: nat, keys: set<Key>): (r: Result<Turn, ScanError>)
      requires p <= |source|
      ensures r.Ok? ==> p < r.value.end <= |source|
      decreases |source| - p, 3
    {
      var token :- ScanKey(p);
      var key := token.key;
      var value :- ScanValue(token.end);
      var repeated := (if key in keys then [key] else []) + value.duplicates;
      var next := SkipSpace(source, value.end);
      if CharAt(source, next, '}') then Ok(Turn(key, repeated, next + 1, true))
      else if CharAt(source, next, ',') then Ok(Turn(key, repeated, next + 1, false))
      else Err(ExpectedMemberComma(key))
    }

    /** The loop of `object`, with the keys seen so far. */
    function ScanMembers(p: nat, keys: set<Key>): (r: ScanResult)
      requires p <= |source|
      ensures r.Ok? ==> p < r.value.end <= |source|
      decreases |source| - p, 4
    {
      if p == |source| then Err(UnterminatedObject) else
        var turn :- ScanMember(p, keys);
        if turn.closed then Ok(Scanned(turn.end, turn.duplicates))
        else Prepend(turn.duplicates, ScanMembers(turn.end, keys + {turn.key}))
    }

    function ScanArray(p: nat): (r: ScanResult)
      requires p < |source|
      ensures r.Ok? ==> p < r.value.end <= |source|
      decreases |source| - p, 1
    {
      var q := SkipSpace(source, p + 1);
      if CharAt(source, q, ']') then Ok(Scanned(q + 1, [])) else ScanElements(q)
    }

    /** One element of an array, up to and including the comma or the bracket after it. */
    function ScanElement(p: nat): (r: Result<Turn, ScanError>)
      requires p <= |source|
      ensures r.Ok? ==> p < r.value.end <= |source|
      decreases |source| - p, 3
    {
      var value :- ScanValue(p);
      var next := SkipSpace(source, value.end);
      if CharAt(source, next, ']') then Ok(Turn([], value.duplicates, next + 1, true))
      else if CharAt(source, next, ',') then Ok(Turn([], value.duplicates, next + 1, false))
      else Err(ExpectedElementComma)
    }

    /** The loop of `array`. */
    function ScanElements(p: nat): (r: ScanResult)
      requires p <= |source|
      ensures r.Ok? ==> p < r.value.end <= |source|
      decreases |source| - p, 4
    {
      if p == |source| then Err(UnterminatedArray) else
        var turn :- ScanElement(p);
        if turn.closed then Ok(Scanned(turn.end, turn.duplicates))
        else Prepend(turn.duplicates, ScanElements(turn.end))
    }

    /** `scanJsonObjectKeys`: one value, then nothing but whitespace. */
    function ScanText(): Result<seq<Key>, ScanError> {
      var value :- ScanValue(0);
      if SkipSpace(source, value.end) != |source| then Err(UnexpectedContent) else Ok(value.duplicates)
    }
  }

  // ---------- The scanner with its mutable cursor ----------

  /** What a thrown or completed call leaves behind. */
  datatype Outcome = Done | Throw(error: ScanError)

  class Scanner {
    const input: Input
    var position: nat
    var duplicates: seq<Key>

    constructor (input: Input)
      ensures this.input == input && position == 0 && duplicates == []
    {
      this.input := input;
      position, duplicates := 0, [];
    }

    /** What a call that scans a value, an object or an array has done to the cursor and the list. */
    twostate predicate Follows(r: ScanResult, outcome: Outcome)
      reads this
    {
      match r
      case Ok(scanned) =>
        && outcome == Done && position == scanned.end <= |input.source|
        && duplicates == old(duplicates) + scanned.duplicates
      case Err(error) => outcome == Throw(error)
    }

    method Whitespace()
      requires position <= |input.source|
      modifies this`position
      ensures position == SkipSpace(input.source, old(position))
    {
      while position < |input.source| && IsSpace(input.source[position])
        invariant position <= |input.source|
        invariant SkipSpace(input.source, position) == SkipSpace(input.source, old(position))
      {
        position := position + 1;
      }
    }

    method StringToken() returns (r: Result<Key, ScanError>)
      requires position <= |input.source|
      modifies this`position
      ensures match input.ScanString(old(position))
              case Ok(token) => r == Ok(token.key) && position == token.end
              case Err(error) => r == Err(error)
    {
      var start := position;
      position := position + 1;
      while position < |input.source|
        invariant start < position
        invariant StringEnd(input.source, position) == StringEnd(input.source, start + 1)
        decreases |input.source| - position
      {
        if input.source[position] == '\\' {
          position := position + 2;
        } else if input.source[position] == '"' {
          position := position + 1;
          var key := input.decode(input.source[start..position]);
          return if key.Some? then Ok(key.value) else Err(InvalidString);
        } else {
          position := position + 1;
        }
      }
      return Err(UnterminatedString);
    }

    method Value() returns (outcome: Outcome)
      requires position <= |input.source|
      modifies this
      ensures Follows(input.ScanValue(old(position)), outcome)
      decreases |input.source| - position, 2
    {
      Whitespace();
      if CharAt(input.source, position, '{') {
        outcome := Object();
        return;
      }
      if CharAt(input.source, position, '[') {
        outcome := Array();
        return;
      }
      if CharAt(input.source, position, '"') {
        var token := StringToken();
        assert duplicates == old(duplicates) + [];
        return if token.Ok? then Done else Throw(token.error);
      }
      ghost var start := position;
      while position < |input.source| && !IsStop(input.source[position])
        invariant start <= position <= |input.source|
        invariant AtomEnd(input.source, position) == AtomEnd(input.source, start)
        invariant duplicates == old(duplicates)
      {
        position := position + 1;
      }
      assert duplicates == old(duplicates) + [];
      return Done;
    }

    /** What one turn of a loop has done; `closed` says whether it returned from the container. */
    twostate predicate Turned(r: Result<Turn, ScanError>, outcome: Outcome, closed: bool)
      reads this
    {
      match r
      case Ok(turn) =>
        && outcome == Done && closed == turn.closed && position == turn.end <= |input.source|
        && duplicates == old(duplicates) + turn.duplicates
      case Err(error) => outcome == Throw(error)
    }

    method MemberKey(keys: set<Key>) returns (r: Result<Key, ScanError>)
      requires position <= |input.source|
      modifies this
      ensures match input.ScanKey(old(position))
              case Ok(token) =>
                && r == Ok(token.key) && position == token.end
                && duplicates == old(duplicates) + (if token.key in keys then [token.key] else [])
              case Err(error) => r == Err(error)
    {
      Whitespace();
      r := StringToken();
      if r.Err? {
        return;
      }
      if r.value in keys {
        duplicates := duplicates + [r.value];
      }
      Whitespace();
      if !CharAt(input.source, position, ':') {
        return Err(ExpectedColon(r.value));
      }
      position := position + 1;
    }

    method Member(keys: set<Key>) returns (outcome: Outcome, key: Key, closed: bool)
      requires position <= |input.source|
      modifies this
      ensures Turned(input.ScanMember(old(position), keys), outcome, closed)
      ensures outcome == Done ==> key == input.ScanMember(old(position), keys).value.key
      decreases |input.source| - position, 3
    {
      key, closed := [], false;
      var token := MemberKey(keys);
      if token.Err? {
        return Throw(token.error), key, closed;
      }
      key := token.value;
      outcome := Value();
      if outcome.Throw? {
        return;
      }
      Whitespace();
      if CharAt(input.source, position, '}') {
        position, closed := position + 1, true;
      } else if CharAt(input.source, position, ',') {
        position := position + 1;
      } else {
        outcome := Throw(ExpectedMemberComma(key));
      }
    }

    /** The loop of `object`. */
    method Members() returns (outcome: Outcome)
      requires position <= |input.source|
      modifies this
      ensures Follows(input.ScanMembers(old(position), {}), outcome)
      decreases |input.source| - position, 4
    {
      var keys: set<Key> := {};
      ghost var found: seq<Key> := [];
      ghost var whole := input.ScanMembers(position, keys);
      PrependNothing(whole);
      while position < |input.source|
        invariant old(position) <= position <= |input.source|
        invariant duplicates == old(duplicates) + found
        invariant whole == Prepend(found, input.ScanMembers(position, keys))
        decreases |input.source| - position
      {
        ghost var turn := input.ScanMember(position, keys);
        var key, closed;
        outcome, key, closed := Member(keys);
        if outcome.Throw? {
          return;
        }
        Assoc(old(duplicates), found, turn.value.duplicates);
        if closed {
          assert whole == Ok(Scanned(position, found + turn.value.duplicates));
          return;
        }
        keys := keys + {key};
        PrependTwice(found, turn.value.duplicates, input.ScanMembers(position, keys));
        found := found + turn.value.duplicates;
      }
      return Throw(UnterminatedObject);
    }

    method Object() returns (outcome: Outcome)
      requires position < |input.source|
      modifies this
      ensures Follows(input.ScanObject(old(position)), outcome)
      decreases |input.source| - position, 1
    {
      position := position + 1;
      Whitespace();
      if CharAt(input.source, position, '}') {
        position := position + 1;
        assert duplicates == old(duplicates) + [];
        return Done;
      }
      outcome := Members();
    }

    method Element() returns (outcome: Outcome, closed: bool)
      requires position <= |input.source|
      modifies this
      ensures Turned(input.ScanElement(old(position)), outcome, closed)
      decreases |input.source| - position, 3
    {
      closed := false;
      outcome := Value();
      if outcome.Throw? {
        return;
      }
      Whitespace();
      if CharAt(input.source, position, ']') {
        position, closed := position + 1, true;
      } else if CharAt(input.source, position, ',') {
        position := position + 1;
      } else {
        outcome := Throw(ExpectedElementComma);
      }
    }

    /** The loop of `array`. */
    method Elements() returns (outcome: Outcome)
      requires position <= |input.source|
      modifies this
      ensures Follows(input.ScanElements(old(position)), outcome)
      decreases |input.source| - position, 4
    {
      ghost var found: seq<Key> := [];
      ghost var whole := input.ScanElements(position);
      PrependNothing(whole);
      while position < |input.source|
        invariant old(position) <= position <= |input.source|
        invariant duplicates == old(duplicates) + found
        invariant whole == Prepend(found, input.ScanElements(position))
        decreases |input.source| - position
      {
        ghost var turn := input.ScanElement(position);
        var closed;
        outcome, closed := Element();
        if outcome.Throw? {
          return;
        }
        Assoc(old(duplicates), found, turn.value.duplicates);
        if closed {
          assert whole == Ok(Scanned(position, found + turn.value.duplicates));
          return;
        }
        PrependTwice(found, turn.value.duplicates, input.ScanElements(position));
        found := found + turn.value.duplicates;
      }
      return Throw(UnterminatedArray);
    }

    method Array() returns (outcome: Outcome)
      requires position < |input.source|
      modifies this
      ensures Follows(input.ScanArray(old(position)), outcome)
      decreases |input.source| - position, 1
    {
      position := position + 1;
      Whitespace();
      if CharAt(input.source, position, ']') {
        position := position + 1;
        assert duplicates == old(duplicates) + [];
        return Done;
      }
      outcome := Elements();
    }
  }

  /** `scanJsonObjectKeys` on every text, malformed ones included: it ends, with the list or with the error. */
  method ScanJsonObjectKeys(input: Input) returns (r: Result<seq<Key>, ScanError>)
    ensures r == input.ScanText()
  {
    var scanner := new Scanner(input);
    var outcome := scanner.Value();
    if outcome.Throw? {
      return Err(outcome.error);
    }
    ghost var scanned := input.ScanValue(0).value;
    assert scanner.position == scanned.end && scanner.duplicates == scanned.duplicates;
    scanner.Whitespace();
    if scanner.position != |input.source| {
      return Err(UnexpectedContent);
    }
    return Ok(scanner.duplicates);
  }
}
