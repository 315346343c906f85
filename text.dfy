/**
 * Text formatting used by the backend: decimal numbers as Python's `str` and
 * `:03d` format them, the first-letter uppercasing of a category, and the
 * queue number `<letter>-<number>` built at registration.
 */
module Text {

  predicate IsDigit(c: char) {
    '0' <= c <= '9'
  }

  predicate AllDigits(s: string) {
    forall i :: 0 <= i < |s| ==> IsDigit(s[i])
  }

  function DigitChar(d: nat): (c: char)
    requires d < 10
    ensures IsDigit(c)
  {
    ('0' as int + d) as char
  }

  function DigitValue(c: char): (d: nat)
    requires IsDigit(c)
    ensures d < 10
  {
    c as int - '0' as int
  }

  /** The number a string of digits denotes, most significant digit first. */
  function DigitsValue(s: string): nat
    requires AllDigits(s)
  {
    if s == [] then 0 else 10 * DigitsValue(s[..|s| - 1]) + DigitValue(s[|s| - 1])
  }

  /** The decimal representation of `n` without leading zeros, as `str(n)` gives it. */
  function Decimal(n: nat): (s: string)
    ensures 1 <= |s| && AllDigits(s)
    ensures |s| > 1 ==> s[0] != '0'
    decreases n
  {
    if n < 10 then [DigitChar(n)] else Decimal(n / 10) + [DigitChar(n % 10)]
  }

  /** Reading back the decimal representation of `n` gives `n`. */
  lemma {:induction false} DecimalRoundTrip(n: nat)
    ensures DigitsValue(Decimal(n)) == n
  {
    if n >= 10 {
      DecimalRoundTrip(n / 10);
      var s := Decimal(n);
      assert s[..|s| - 1] == Decimal(n / 10);
    }
  }

  function Zeros(k: nat): (s: string)
    ensures |s| == k && AllDigits(s)
    ensures forall i :: 0 <= i < k ==> s[i] == '0'
  {
    seq(k, _ => '0')
  }

  /** Leading zeros do not change the value of a digit string. */
  lemma {:induction false} LeadingZerosValue(k: nat, d: string)
    requires AllDigits(d)
    ensures AllDigits(Zeros(k) + d)
    ensures DigitsValue(Zeros(k) + d) == DigitsValue(d)
    decreases |d|
  {
    var s := Zeros(k) + d;
    if d == [] {
      assert s == Zeros(k);
      ZerosValue(k);
    } else {
      assert s[..|s| - 1] == Zeros(k) + d[..|d| - 1];
      LeadingZerosValue(k, d[..|d| - 1]);
    }
  }

  lemma {:induction false} ZerosValue(k: nat)
    ensures DigitsValue(Zeros(k)) == 0
  {
    if k > 0 {
      assert Zeros(k)[..k - 1] == Zeros(k - 1);
      ZerosValue(k - 1);
    }
  }

  /** `n` in decimal, left-padded with zeros to at least `width` characters (`f"{n:0{width}d}"`). */
  function ZeroPad(n: nat, width: nat): (s: string)
    ensures AllDigits(s)
    ensures |s| == if |Decimal(n)| < width then width else |Decimal(n)|
  {
    var d := Decimal(n);
    if |d| < width then Zeros(width - |d|) + d else d
  }

  /** Padding keeps the value: reading back `ZeroPad(n, width)` gives `n`. */
  lemma {:induction false} ZeroPadRoundTrip(n: nat, width: nat)
    ensures DigitsValue(ZeroPad(n, width)) == n
  {
    DecimalRoundTrip(n);
    var d := Decimal(n);
    if |d| < width {
      LeadingZerosValue(width - |d|, d);
    }
  }

  /** Uppercase of one character; only ASCII letters change. */
  function UpperChar(c: char): (u: char)
    ensures !('a' <= u <= 'z')
    ensures !('a' <= c <= 'z') ==> u == c
  {
    if 'a' <= c <= 'z' then (c as int - 'a' as int + 'A' as int) as char else c
  }

  /** `category[:1].upper()`: the uppercased first character, or nothing for an empty category. */
  function QueuePrefix(category: string): (p: string)
    ensures |p| == if category == [] then 0 else 1
  {
    if category == [] then [] else [UpperChar(category[0])]
  }

  /** The queue number of the `n`-th registrant: prefix, a dash, `n` padded to three digits. */
  function QueueNumber(category: string, n: nat): string {
    QueuePrefix(category) + "-" + ZeroPad(n, 3)
  }

  /** The longest suffix of `s` made only of digits. */
  function TrailingDigits(s: string): (t: string)
    ensures AllDigits(t) && |t| <= |s| && t == s[|s| - |t|..]
  {
    if s == [] || !IsDigit(s[|s| - 1]) then []
    else TrailingDigits(s[..|s| - 1]) + [s[|s| - 1]]
  }

  /** The numeric part of a queue number: the value of its trailing digits. */
  function QueueSuffix(q: string): nat {
    DigitsValue(TrailingDigits(q))
  }

  /** After a dash, the trailing digits of a string are exactly the digits that follow the dash. */
  lemma {:induction false} TrailingDigitsAfterDash(p: string, d: string)
    requires AllDigits(d)
    ensures TrailingDigits(p + "-" + d) == d
    decreases |d|
  {
    var s := p + "-" + d;
    if d != [] {
      assert s[..|s| - 1] == p + "-" + d[..|d| - 1];
      TrailingDigitsAfterDash(p, d[..|d| - 1]);
    }
  }

  /** The numeric part of the queue number of the `n`-th registrant is `n`, whatever the category. */
  lemma {:induction false} QueueNumberRoundTrip(category: string, n: nat)
    ensures QueueSuffix(QueueNumber(category, n)) == n
  {
    TrailingDigitsAfterDash(QueuePrefix(category), ZeroPad(n, 3));
    ZeroPadRoundTrip(n, 3);
  }

  /** Registrants with different positions never share a queue number. */
  lemma {:induction false} QueueNumberInjective(c1: string, n1: nat, c2: string, n2: nat)
    requires n1 != n2
    ensures QueueNumber(c1, n1) != QueueNumber(c2, n2)
  {
    QueueNumberRoundTrip(c1, n1);
    QueueNumberRoundTrip(c2, n2);
  }

  /** The alert message's decimal rendering of small numbers, checked on the values the tiers use. */
  lemma {:induction false} DecimalExamples()
    ensures Decimal(5) == "5" && Decimal(10) == "10" && Decimal(123) == "123"
    ensures ZeroPad(7, 3) == "007" && ZeroPad(1234, 3) == "1234"
    ensures QueueNumber("Senior Citizen", 12) == "S-012" && QueueNumber("pregnant", 1) == "P-001"
  {
  }
}
