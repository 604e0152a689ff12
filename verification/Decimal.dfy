/** Integers as decimal text, the form in which amounts are stored and piped. */
module Decimal {
  import opened Bytes
  import opened Types

  const MINUS: byte := 45
  const ZERO: byte := 48

  function Digits(n: nat): (r: Bytes)
    ensures |r| >= 1 && r[0] != MINUS
  {
    if n < 10 then [ZERO + n] else Digits(n / 10) + [ZERO + n % 10]
  }

  /** The decimal text of an integer. */
  function Text(i: int): (r: Bytes)
    ensures r != []
  {
    if i < 0 then [MINUS] + Digits(-i) else Digits(i)
  }

  predicate IsDigit(b: byte) {
    ZERO <= b < ZERO + 10
  }

  function ParseDigits(s: Bytes): Option<nat>
    decreases |s|
  {
    if s == [] || !IsDigit(s[|s| - 1]) then None
    else if |s| == 1 then Some(s[|s| - 1] - ZERO)
    else
      var high := ParseDigits(s[..|s| - 1]);
      if high.None? then None else Some(10 * high.value + (s[|s| - 1] - ZERO))
  }

  /** Reading an integer; text that is not a number is refused. */
  function Parse(s: Bytes): Option<int> {
    if s != [] && s[0] == MINUS then
      var n := ParseDigits(s[1..]);
      if n.None? then None else (var i: int := 0 - n.value; Some(i))
    else
      var n := ParseDigits(s);
      if n.None? then None else Some(n.value)
  }

  lemma {:induction false} DigitsRoundTrip(n: nat)
    ensures ParseDigits(Digits(n)) == Some(n)
  {
    if n >= 10 {
      DigitsRoundTrip(n / 10);
      var s := Digits(n);
      assert s[..|s| - 1] == Digits(n / 10);
    }
  }

  lemma TextRoundTrip(i: int)
    ensures Parse(Text(i)) == Some(i)
  {
    if i < 0 {
      var digits := Digits(-i);
      assert ([MINUS] + digits)[1..] == digits && ([MINUS] + digits)[0] == MINUS;
      DigitsRoundTrip(-i);
    } else {
      DigitsRoundTrip(i);
    }
  }

  /** Text that is read as a number: one or more digits, with or without a '-' in
      front. */
  lemma {:induction false} DigitsAccepted(s: Bytes)
    ensures ParseDigits(s).Some? <==> s != [] && forall i | 0 <= i < |s| :: 48 <= s[i] <= 57
    decreases |s|
  {
    if |s| > 1 {
      DigitsAccepted(s[..|s| - 1]);
      assert forall i | 0 <= i < |s| - 1 :: s[i] == s[..|s| - 1][i];
    }
  }

  lemma Accepted(s: Bytes)
    ensures Parse(s).Some? <==>
            var digits := if s != [] && s[0] == 45 then s[1..] else s;
            digits != [] && forall i | 0 <= i < |digits| :: 48 <= digits[i] <= 57
  {
    DigitsAccepted(s);
    if s != [] { DigitsAccepted(s[1..]); }
  }

  function Pow10(k: nat): (r: nat)
    ensures r >= 1
  {
    if k == 0 then 1 else 10 * Pow10(k - 1)
  }

  lemma DivTen(n: nat, k: nat)
    ensures n / 10 / Pow10(k) == n / Pow10(k + 1)
  {
    var p := Pow10(k);
    assert Pow10(k + 1) == 10 * p;
    var a, b := n / 10, n / 10 / p;
    assert n == 10 * a + n % 10 && a == p * b + a % p;
    assert 10 * (p * b) == 10 * p * b;
    Quotient(n, 10 * p, b, 10 * (a % p) + n % 10);
  }

  lemma Quotient(n: nat, d: nat, q: nat, r: nat)
    requires r < d && n == d * q + r
    ensures n / d == q
  {
    var x := n / d;
    assert n == d * x + n % d;
    if x < q {
      MulMono(x + 1, q, d);
    } else if x > q {
      MulMono(q + 1, x, d);
    }
  }

  /** The digits of a number: each is that of its power of ten, as a character
      from '0' (48) to '9', and the first is not '0' unless it is the only one. */
  lemma {:induction false} DigitsMean(n: nat)
    ensures var d := Digits(n);
            && n < Pow10(|d|)
            && (forall i | 0 <= i < |d| :: d[i] == 48 + n / Pow10(|d| - 1 - i) % 10)
            && (|d| > 1 ==> d[0] != 48)
  {
    var d := Digits(n);
    assert Pow10(0) == 1;
    if n < 10 {
      assert Pow10(1) == 10;
    } else {
      var high := Digits(n / 10);
      DigitsMean(n / 10);
      assert |d| == |high| + 1;
      forall i | 0 <= i < |d| ensures d[i] == 48 + n / Pow10(|d| - 1 - i) % 10 {
        if i < |high| { DivTen(n, |high| - 1 - i); }
      }
    }
  }

  /** The text of an integer: its digits, behind a '-' (45) when it is negative. */
  lemma TextMeans(i: int)
    ensures i >= 0 ==> Text(i) == Digits(i)
    ensures i < 0 ==> Text(i) == [45] + Digits(-i)
  {
  }

  lemma {:induction false} DigitsLength(n: nat, k: nat)
    requires 1 <= k && n < Pow10(k)
    ensures |Digits(n)| <= k
  {
    if n >= 10 {
      assert Pow10(1) == 10;
      DigitsLength(n / 10, k - 1);
    }
  }

  const TWO_256: int := 0x1_0000000000000000_0000000000000000_0000000000000000_0000000000000000

  /** The amounts of the SDK have at most 256 bits and so at most 78 digits. */
  lemma AmountLength(n: nat)
    requires n < TWO_256
    ensures |Text(n)| <= 78
  {
    Pow10Of78();
    DigitsLength(n, 78);
  }

  lemma {:induction false} Pow10Add(a: nat, b: nat)
    ensures Pow10(a + b) == Pow10(a) * Pow10(b)
  {
    if a > 0 { Pow10Add(a - 1, b); }
  }

  lemma Pow10Double(k: nat, p: nat)
    requires Pow10(k) == p
    ensures Pow10(2 * k) == p * p
  {
    Pow10Add(k, k);
  }

  lemma Pow10Of78()
    ensures Pow10(78) >= TWO_256
  {
    assert Pow10(3) == 1000 by { assert Pow10(1) == 10; }
    Pow10Double(3, 1000);
    Pow10Double(6, 1000000);
    Pow10Double(12, 1000000000000);
    Pow10Double(24, 1000000000000000000000000);
    Pow10Add(48, 24);
    Pow10Add(72, 6);
  }
}
