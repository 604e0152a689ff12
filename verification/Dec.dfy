/** Fixed-point numbers with 18 decimals, and the share of a slash that falls on
    one delegator. */
module Dec {

  const ONE: int := 1_000_000_000_000_000_000
  const HALF: int := 500_000_000_000_000_000

  /** A decimal is held as a whole number of 10^-18. */
  type Raw = nat

  /** Drop 18 digits, rounding to nearest and ties to even. */
  function Round(d: nat): nat {
    var quo, rem := d / ONE, d % ONE;
    if rem < HALF then quo
    else if rem > HALF then quo + 1
    else if quo % 2 == 0 then quo else quo + 1
  }

  /** Division: two extra precisions, truncated, then rounded back once. */
  function Quo(a: Raw, b: Raw): Raw
    requires b != 0
  {
    Round(a * ONE * ONE / b)
  }

  function MulInt(a: Raw, n: nat): Raw {
    a * n
  }

  function RoundInt(a: Raw): nat {
    Round(a)
  }

  /** The part of a validator's slash that falls on a delegator. */
  function DelegatorSlash(delegatorShares: Raw, validatorShares: Raw, total: nat): nat {
    if validatorShares == 0 then RoundInt(0)
    else RoundInt(MulInt(Quo(delegatorShares, validatorShares), total))
  }

  // --------------------------------------------------------------- rounding

  lemma RoundError(d: nat)
    ensures -HALF <= Round(d) * ONE - d <= HALF
  {
    assert d == (d / ONE) * ONE + d % ONE;
  }

  /** `r` is `d` * 10^-18 rounded to the nearest whole number, and to the even one
      when there are two. */
  predicate IsNearest(r: nat, d: nat) {
    var off := r * 1_000_000_000_000_000_000 - d;
    && -500_000_000_000_000_000 <= off <= 500_000_000_000_000_000
    && (off == 500_000_000_000_000_000 || off == -500_000_000_000_000_000 ==> r % 2 == 0)
  }

  /** `Round` is that rounding, and nothing else is. */
  lemma RoundIsNearest(d: nat, r: nat)
    ensures r == Round(d) <==> IsNearest(r, d)
  {
    assert d == (d / ONE) * ONE + d % ONE;
    var q := d / ONE;
    if IsNearest(r, d) {
      assert q <= r <= q + 1;
    }
  }

  lemma RoundMonotone(a: nat, b: nat)
    requires a <= b
    ensures Round(a) <= Round(b)
  {
    assert a == (a / ONE) * ONE + a % ONE && b == (b / ONE) * ONE + b % ONE;
  }

  lemma RoundWhole(k: nat)
    ensures Round(k * ONE) == k
  {
    assert k * ONE / ONE == k && k * ONE % ONE == 0;
  }

  // ------------------------------------------------- nonlinear arithmetic

  lemma Mono(a: int, b: int, c: nat)
    requires a <= b
    ensures a * c <= b * c && c * a <= c * b
  {
  }

  lemma MonoDiv(a: nat, b: nat, c: nat)
    requires a <= b && c > 0
    ensures a / c <= b / c
  {
    var x, y := a / c, b / c;
    assert a == c * x + a % c && b == c * y + b % c;
    assert c * (y + 1) == c * y + c;
    if y < x {
      Mono(y + 1, x, c);
    }
  }

  /** Quotient and remainder without division in the conclusion. */
  lemma Divide(a: nat, c: nat) returns (x: nat)
    requires c > 0
    ensures x == a / c && x * c <= a < x * c + c
  {
    x := a / c;
    assert a == c * x + a % c;
  }

  lemma Scale(lo: int, x: int, hi: int, c: nat)
    requires lo <= x <= hi
    ensures lo * c <= x * c <= hi * c
  {
    Mono(lo, x, c);
    Mono(x, hi, c);
  }

  // ------------------------------------------------------------ the ratio

  /** The share ratio is between 0 and 1 and off by less than 10^-18. */
  lemma RatioError(s: Raw, v: Raw)
    requires s <= v && v > 0
    ensures 0 - v <= Quo(s, v) * v - s * ONE <= v
  {
    var n := s * ONE * ONE;
    var x := Divide(n, v);
    var q := Quo(s, v);
    RoundError(x);
    Scale(-HALF, q * ONE - x, HALF, v);
    assert (q * ONE - x) * v == ONE * (q * v) - x * v;
    var e := q * v - s * ONE;
    assert ONE * e == ONE * (q * v) - n;
  }

  lemma RatioAtMostOne(s: Raw, v: Raw)
    requires s <= v && v > 0
    ensures Quo(s, v) <= ONE
  {
    Mono(s, v, ONE * ONE);
    var x := Divide(s * ONE * ONE, v);
    var y := Divide(v * ONE * ONE, v);
    MonoDiv(s * ONE * ONE, v * ONE * ONE, v);
    WholeQuotient(ONE * ONE, v);
    RoundMonotone(x, y);
    RoundWhole(ONE);
  }

  lemma WholeQuotient(k: nat, v: nat)
    requires v > 0
    ensures v * k / v == k
  {
    var y := Divide(v * k, v);
    if y < k {
      Mono(y + 1, k, v);
    } else if y > k {
      Mono(k + 1, y, v);
    }
  }

  lemma RatioMonotone(s: Raw, s': Raw, v: Raw)
    requires s <= s' && v > 0
    ensures Quo(s, v) <= Quo(s', v)
  {
    Mono(s, s', ONE * ONE);
    MonoDiv(s * ONE * ONE, s' * ONE * ONE, v);
    RoundMonotone(s * ONE * ONE / v, s' * ONE * ONE / v);
  }

  // ------------------------------------------------------------ the amount

  /** A delegator is never charged more than the whole slash, and everything
      when it holds all shares. */
  lemma SlashWithinTotal(s: Raw, v: Raw, total: nat)
    requires s <= v
    ensures DelegatorSlash(s, v, total) <= total
    ensures 0 < s == v ==> DelegatorSlash(s, v, total) == total
    ensures s == 0 ==> DelegatorSlash(s, v, total) == 0
  {
    RoundWhole(total);
    RoundWhole(0);
    if v > 0 {
      RatioAtMostOne(s, v);
      Mono(Quo(s, v), ONE, total);
      RoundMonotone(Quo(s, v) * total, ONE * total);
      assert ONE * total == total * ONE;
      if s == v {
        WholeQuotient(ONE * ONE, v);
        RoundWhole(ONE);
        assert v * ONE * ONE == v * (ONE * ONE);
      }
      if s == 0 {
        var x := Divide(0, v);
        assert x == 0 by { if x > 0 { Mono(1, x, v); } }
      }
    }
  }

  /** More shares never mean a smaller slash. */
  lemma SlashMonotone(s: Raw, s': Raw, v: Raw, total: nat)
    requires s <= s'
    ensures DelegatorSlash(s, v, total) <= DelegatorSlash(s', v, total)
  {
    if v > 0 {
      RatioMonotone(s, s', v);
      Mono(Quo(s, v), Quo(s', v), total);
      RoundMonotone(Quo(s, v) * total, Quo(s', v) * total);
    }
  }

  /** What the final rounding costs ... */
  lemma SlashRounding(q: Raw, v: Raw, total: nat, a: int)
    requires a == Round(q * total)
    ensures 0 - v * HALF <= a * v * ONE - q * total * v <= v * HALF
  {
    RoundError(q * total);
    Scale(0 - HALF, a * ONE - q * total, HALF, v);
    Spread(a, ONE, q, total, v);
    Swap(a, ONE, v);
  }

  /** ... and what the rounded quotient costs. */
  lemma SlashRatio(s: Raw, v: Raw, total: nat)
    requires s <= v && v > 0
    ensures 0 - total * v <= Quo(s, v) * total * v - s * total * ONE <= total * v
  {
    var q := Quo(s, v);
    RatioError(s, v);
    Scale(0 - v, q * v - s * ONE, v, total);
    Spread(q, v, s, ONE, total);
    Swap(q, v, total);
    Swap(s, ONE, total);
  }

  /** The amount differs from total * s / v by at most 1/2 + total * 10^-18,
      here multiplied by v * 10^18. */
  lemma SlashError(s: Raw, v: Raw, total: nat)
    requires s <= v && v > 0
    ensures var exact, error := s * total * ONE, v * HALF + total * v;
            exact - error <= DelegatorSlash(s, v, total) * v * ONE <= exact + error
  {
    var q, a := Quo(s, v), DelegatorSlash(s, v, total);
    SlashRounding(q, v, total, a);
    SlashRatio(s, v, total);
    SlashErrorSum(a * v * ONE, q * total * v, s * total * ONE, v * HALF, total * v);
  }

  lemma Swap(a: int, b: int, c: int)
    ensures a * b * c == a * c * b
  {
  }

  lemma Spread(a: int, b: int, c: int, d: int, e: int)
    ensures (a * b - c * d) * e == a * b * e - c * d * e
  {
  }

  lemma SlashErrorSum(x: int, y: int, z: int, e1: int, e2: int)
    ensures -e1 <= x - y <= e1 && -e2 <= y - z <= e2 ==> z - (e1 + e2) <= x <= z + (e1 + e2)
  {
  }

  /** The amount of a slash, spelled out: the quotient of the shares is cut off
      at 36 decimals and rounded to 18, multiplied with the total, and rounded to
      a whole number. Without any shares it is zero. */
  lemma SlashMeans(s: Raw, v: Raw, total: nat, x: nat, q: nat, a: nat)
    requires v > 0
    requires x * v <= s * 1_000_000_000_000_000_000_000_000_000_000_000_000 < (x + 1) * v
    requires IsNearest(q, x)
    ensures a == DelegatorSlash(s, v, total) <==> IsNearest(a, q * total)
    ensures DelegatorSlash(s, 0, total) == 0
  {
    var n := s * ONE * ONE;
    assert n == s * 1_000_000_000_000_000_000_000_000_000_000_000_000;
    var y := Divide(n, v);
    assert (x + 1) * v == x * v + v && (y + 1) * v == y * v + v;
    if x < y {
      Mono(x + 1, y, v);
    } else if y < x {
      Mono(y + 1, x, v);
    }
    RoundIsNearest(x, q);
    RoundIsNearest(q * total, a);
    RoundWhole(0);
  }

  // ---------------------------------------------------- several delegators

  function Sum(xs: seq<nat>): nat {
    if xs == [] then 0 else xs[0] + Sum(xs[1..])
  }

  function Slashes(shares: seq<Raw>, v: Raw, total: nat): (r: seq<nat>)
    ensures |r| == |shares|
  {
    if shares == [] then [] else [DelegatorSlash(shares[0], v, total)] + Slashes(shares[1..], v, total)
  }

  lemma {:induction false} SlashesError(shares: seq<Raw>, v: Raw, total: nat)
    requires Sum(shares) <= v && v > 0
    ensures Sum(Slashes(shares, v, total)) * v * ONE <= Sum(shares) * total * ONE + |shares| * (v * HALF + total * v)
  {
    if shares != [] {
      var rest := shares[1..];
      SlashesError(rest, v, total);
      SlashError(shares[0], v, total);
      assert Slashes(shares, v, total)[1..] == Slashes(rest, v, total);
      AddScaled(DelegatorSlash(shares[0], v, total), Sum(Slashes(rest, v, total)), v);
      AddScaled(shares[0], Sum(rest), total);
      OneMore(|rest|, v * HALF + total * v);
    }
  }

  lemma AddScaled(a: int, b: int, c: int)
    ensures (a + b) * c * ONE == a * c * ONE + b * c * ONE
  {
  }

  lemma OneMore(n: int, e: int)
    ensures (n + 1) * e == n * e + e
  {
  }

  /** Contracts with disjoint shares together are charged at most the total and
      half a token plus total * 10^-18 each. */
  lemma SlashesBounded(shares: seq<Raw>, v: Raw, total: nat)
    requires Sum(shares) <= v && v > 0
    ensures Sum(Slashes(shares, v, total)) * ONE <= total * ONE + |shares| * (HALF + total)
  {
    SlashesError(shares, v, total);
    Mono(Sum(shares), v, total * ONE);
    CancelFactor(Sum(Slashes(shares, v, total)), Sum(shares), |shares|, v, total);
  }

  lemma CancelFactor(a: nat, s: nat, n: nat, v: nat, total: nat)
    requires v > 0 && s * (total * ONE) <= v * (total * ONE)
    requires a * v * ONE <= s * total * ONE + n * (v * HALF + total * v)
    ensures a * ONE <= total * ONE + n * (HALF + total)
  {
    var e := HALF + total;
    FactorOut(n, v, total);
    Regroup(s, total);
    Regroup(a, v);
    var bound := total * ONE + n * e;
    assert v * bound == v * (total * ONE) + v * (n * e) by { Distribute(v, total * ONE, n * e); }
    assert a * (v * ONE) == v * (a * ONE) by { Rotate(a, v); }
    if a * ONE > bound {
      Mono(bound + 1, a * ONE, v);
      Distribute(v, bound, 1);
    }
  }

  lemma Regroup(a: int, b: int)
    ensures a * b * ONE == a * (b * ONE)
  {
  }

  lemma Rotate(a: int, b: int)
    ensures a * (b * ONE) == b * (a * ONE)
  {
  }

  lemma Distribute(a: int, b: int, c: int)
    ensures a * (b + c) == a * b + a * c
  {
  }

  lemma FactorOut(n: int, v: int, total: int)
    ensures n * (v * HALF + total * v) == v * (n * (HALF + total))
  {
    assert v * HALF + total * v == v * (HALF + total);
    var e := HALF + total;
    assert n * (v * e) == v * (n * e);
  }
}
