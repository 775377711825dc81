/** Decimal text and the numbers it stands for: `Number(text)` and `String(number)` on whole numbers. */
module Decimal {
  /** `Number.MAX_SAFE_INTEGER`. */
  const MAX_SAFE: nat := 9007199254740991

  predicate IsDigit(c: char) {
    '0' <= c <= '9'
  }

  /** The pattern `^\d+$`. */
  predicate Digits(s: string) {
    |s| > 0 && forall i :: 0 <= i < |s| ==> IsDigit(s[i])
  }

  /** The pattern `^[1-9]\d*$`. */
  predicate Canonical(s: string) {
    Digits(s) && s[0] != '0'
  }

  function Value(s: string): nat
    requires forall i :: 0 <= i < |s| ==> IsDigit(s[i])
  {
    if s == "" then 0 else
      assert IsDigit(s[|s| - 1]);
      Value(s[..|s| - 1]) * 10 + (s[|s| - 1] as int - '0' as int)
  }

  function Show(n: nat): (s: string)
    ensures Digits(s)
  {
    if n < 10 then [('0' as int + n) as char] else Show(n / 10) + [('0' as int + n % 10) as char]
  }

  lemma {:induction false} ValueShow(n: nat)
    ensures Value(Show(n)) == n
    ensures n > 0 ==> Canonical(Show(n))
  {
    if n >= 10 {
      ValueShow(n / 10);
      assert Show(n)[..|Show(n)| - 1] == Show(n / 10);
    }
  }

  lemma {:induction false} ShowValue(s: string)
    requires Canonical(s)
    ensures Value(s) > 0 && Show(Value(s)) == s
  {
    var init, last := s[..|s| - 1], s[|s| - 1];
    if init == "" {
      assert Value(init) == 0;
    } else {
      assert init[0] == s[0];
      ShowValue(init);
      assert Value(s) / 10 == Value(init) && Value(s) % 10 == last as int - '0' as int;
    }
    assert s == init + [last];
  }

  /** One more digit is ten times the number and the digit's own value. */
  lemma {:induction false} ValueAppends(s: string, c: char)
    requires (forall i :: 0 <= i < |s| ==> IsDigit(s[i])) && IsDigit(c)
    ensures Value(s + [c]) == 10 * Value(s) + (c as int - '0' as int)
  {
    assert (s + [c])[..|s|] == s;
  }
}
