/** String facts the template conversion relies on: Python's substring test
    `sub in text`, ASCII lower-casing (`str.lower` on the words it is compared
    with) and the decimal value of a digit string (`int(...)`). */
module Text {

  predicate IsDigit(c: char) {
    '0' <= c <= '9'
  }

  predicate AllDigits(s: string) {
    forall i :: 0 <= i < |s| ==> IsDigit(s[i])
  }

  /** `sub` occurs in `text` starting at index `i`. */
  predicate OccursAt(text: string, sub: string, i: int) {
    0 <= i && i + |sub| <= |text| && text[i..i + |sub|] == sub
  }

  /** Left-to-right scan for `sub` at index `k` or later. */
  function ContainsFrom(text: string, sub: string, k: nat): (r: bool)
    requires k <= |text|
    ensures r <==> exists i :: k <= i && OccursAt(text, sub, i)
    decreases |text| - k
  {
    if k + |sub| > |text| then false
    else if text[k..k + |sub|] == sub then assert OccursAt(text, sub, k); true
    else ContainsFrom(text, sub, k + 1)
  }

  /** Python's `sub in text` on strings. */
  function Contains(text: string, sub: string): (r: bool)
    ensures r <==> exists i :: OccursAt(text, sub, i)
  {
    ContainsFrom(text, sub, 0)
  }

  /** For a one-character needle, the substring test is plain membership. */
  lemma {:induction false} ContainsChar(text: string, c: char)
    ensures Contains(text, [c]) <==> c in text
  {
    if Contains(text, [c]) {
      var i :| OccursAt(text, [c], i);
      assert text[i] == text[i..i + 1][0];
    }
    if c in text {
      var i :| 0 <= i < |text| && text[i] == c;
      assert text[i..i + 1] == [c];
      assert OccursAt(text, [c], i);
    }
  }

  function LowerChar(c: char): char {
    if 'A' <= c <= 'Z' then (c as int + 32) as char else c
  }

  /** ASCII lower-casing, character by character. */
  function Lower(s: string): (r: string)
    ensures |r| == |s|
    ensures forall i :: 0 <= i < |s| ==> r[i] == LowerChar(s[i])
  {
    if s == [] then [] else [LowerChar(s[0])] + Lower(s[1..])
  }

  function Pow10(n: nat): nat {
    if n == 0 then 1 else 10 * Pow10(n - 1)
  }

  function DigitValue(c: char): nat
    requires IsDigit(c)
  {
    (c as int) - ('0' as int)
  }

  /** Python's `int(s)` for a string of ASCII digits. */
  function DigitsValue(s: string): (n: nat)
    requires AllDigits(s)
    ensures n < Pow10(|s|)
  {
    if s == [] then 0 else 10 * DigitsValue(s[..|s| - 1]) + DigitValue(s[|s| - 1])
  }

  /** Reading digits in two pieces: the value of `a + b` is the value of `a`
      shifted left by `|b|` decimal places plus the value of `b`. */
  lemma {:induction false} DigitsValueAppend(a: string, b: string)
    requires AllDigits(a) && AllDigits(b)
    ensures AllDigits(a + b)
    ensures DigitsValue(a + b) == DigitsValue(a) * Pow10(|b|) + DigitsValue(b)
    decreases |b|
  {
    assert AllDigits(a + b) by {
      forall i | 0 <= i < |a + b| ensures IsDigit((a + b)[i]) {
        if i < |a| { assert (a + b)[i] == a[i]; } else { assert (a + b)[i] == b[i - |a|]; }
      }
    }
    if b == [] {
      assert a + b == a;
    } else {
      var b' := b[..|b| - 1];
      var d := DigitValue(b[|b| - 1]);
      assert (a + b)[..|a + b| - 1] == a + b';
      assert (a + b)[|a + b| - 1] == b[|b| - 1];
      DigitsValueAppend(a, b');
      ShiftDigit(DigitsValue(a), Pow10(|b'|), DigitsValue(b'), d);
    }
  }

  lemma ShiftDigit(x: int, p: int, y: int, d: int)
    ensures 10 * (x * p + y) + d == x * (10 * p) + (10 * y + d)
  {
  }

  /** Leading zeros do not change the value: `int("007") == 7`. */
  lemma LeadingZerosIgnored(zeros: string, s: string)
    requires forall i :: 0 <= i < |zeros| ==> zeros[i] == '0'
    requires AllDigits(s)
    ensures AllDigits(zeros + s)
    ensures DigitsValue(zeros + s) == DigitsValue(s)
  {
    DigitsValueAppend(zeros, s);
    AllZerosValue(zeros);
  }

  lemma {:induction false} AllZerosValue(zeros: string)
    requires forall i :: 0 <= i < |zeros| ==> zeros[i] == '0'
    ensures DigitsValue(zeros) == 0
  {
    if zeros != [] {
      AllZerosValue(zeros[..|zeros| - 1]);
    }
  }
  /** The ASCII digit for a value below ten. */
  function DigitChar(d: nat): (c: char)
    requires d < 10
    ensures IsDigit(c) && DigitValue(c) == d
  {
    ('0' as int + d) as char
  }

  /** Python's `str(n)` for a non-negative integer: its decimal digits,
      without leading zeros. */
  function DecimalString(n: nat): (s: string)
    ensures AllDigits(s) && s != []
    ensures s[0] != '0' || s == "0"
    decreases n
  {
    if n < 10 then [DigitChar(n)]
    else
      var front := DecimalString(n / 10);
      var s := front + [DigitChar(n % 10)];
      assert s[0] == front[0];
      s
  }

  /** Reading back the printed digits gives the number. */
  lemma {:induction false} DecimalRoundTrip(n: nat)
    ensures DigitsValue(DecimalString(n)) == n
    decreases n
  {
    if n >= 10 {
      var s := DecimalString(n);
      var front := DecimalString(n / 10);
      assert s[..|s| - 1] == front;
      DecimalRoundTrip(n / 10);
    }
  }

  /** A digit string that does not start with `0` has a non-zero value. */
  lemma {:induction false} LeadingDigitPositive(s: string)
    requires AllDigits(s) && s != [] && s[0] != '0'
    ensures DigitsValue(s) > 0
  {
    if |s| > 1 {
      var front := s[..|s| - 1];
      assert front[0] == s[0];
      LeadingDigitPositive(front);
    }
  }

  /** Printing the value of a digit string without leading zeros gives the
      string back: `str(int(s)) == s`. */
  lemma {:induction false} DigitsRoundTrip(s: string)
    requires AllDigits(s) && s != [] && (s[0] != '0' || s == "0")
    ensures DecimalString(DigitsValue(s)) == s
  {
    var front := s[..|s| - 1];
    var n := DigitsValue(s);
    if |s| == 1 {
      assert s == [s[0]];
    } else {
      assert front[0] == s[0];
      LeadingDigitPositive(front);
      assert n / 10 == DigitsValue(front) && n % 10 == DigitValue(s[|s| - 1]);
      DigitsRoundTrip(front);
      assert s == front + [s[|s| - 1]];
    }
  }
}
