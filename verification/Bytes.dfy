/** Byte strings in the order the key/value store iterates them, and the
    fixed-width big-endian numbers that keys are built from. */
module Bytes {

  type byte = x: int | 0 <= x < 256

  type Bytes = seq<byte>

  const TWO_64: int := 0x1_0000_0000_0000_0000

  type u64 = x: int | 0 <= x < TWO_64

  type i64 = x: int | -0x8000_0000_0000_0000 <= x < 0x8000_0000_0000_0000

  /** The bit pattern of a signed 64-bit number, read as unsigned. */
  function ToU64(i: i64): u64 {
    if i < 0 then i + TWO_64 else i
  }

  function ToI64(u: u64): i64 {
    if u < 0x8000_0000_0000_0000 then u else u - TWO_64
  }

  /** The two differ by a multiple of 2^64. */
  lemma TwosComplement(i: i64)
    ensures i >= 0 ==> ToU64(i) == i
    ensures i < 0 ==> ToU64(i) == 0x1_0000_0000_0000_0000 + i
    ensures ToI64(ToU64(i)) == i
  {
  }

  // ---------------------------------------------------------------- order

  /** Lexicographic order, a proper prefix first. */
  predicate Lt(a: Bytes, b: Bytes) {
    b != [] && (a == [] || a[0] < b[0] || (a[0] == b[0] && Lt(a[1..], b[1..])))
  }

  /** The strings agree on `k` bytes, and then the second one is ahead: it goes on
      where the first one ends, or has the greater byte. */
  predicate AheadAt(a: Bytes, b: Bytes, k: nat) {
    && k <= |a| && k < |b| && a[..k] == b[..k]
    && (k == |a| || a[k] < b[k])
  }

  lemma AheadFirst(a: Bytes, b: Bytes, k: nat)
    requires AheadAt(a, b, k) && k > 0
    ensures a[0] == b[0] && AheadAt(a[1..], b[1..], k - 1)
  {
    assert a[..k][0] == b[..k][0];
    assert a[1..][..k - 1] == a[..k][1..] && b[1..][..k - 1] == b[..k][1..];
  }

  lemma AheadMore(a: Bytes, b: Bytes, k: nat)
    requires a != [] && b != [] && a[0] == b[0] && AheadAt(a[1..], b[1..], k)
    ensures AheadAt(a, b, k + 1)
  {
    assert a[..k + 1] == [a[0]] + a[1..][..k] && b[..k + 1] == [b[0]] + b[1..][..k];
  }

  /** Lexicographic order: exactly that. */
  lemma {:induction false} LtMeans(a: Bytes, b: Bytes)
    ensures Lt(a, b) <==> exists k: nat :: AheadAt(a, b, k)
  {
    if k: nat :| AheadAt(a, b, k) && k > 0 {
      AheadFirst(a, b, k);
    }
    if a != [] && b != [] && a[0] == b[0] {
      LtMeans(a[1..], b[1..]);
      if k: nat :| AheadAt(a[1..], b[1..], k) {
        AheadMore(a, b, k);
      }
    } else {
      assert Lt(a, b) ==> AheadAt(a, b, 0);
    }
  }

  lemma LtIrreflexive(a: Bytes)
    ensures !Lt(a, a)
  {
  }

  lemma {:induction false} LtTransitive(a: Bytes, b: Bytes, c: Bytes)
    requires Lt(a, b) && Lt(b, c)
    ensures Lt(a, c)
  {
    if a != [] && a[0] == b[0] == c[0] {
      LtTransitive(a[1..], b[1..], c[1..]);
    }
  }

  lemma {:induction false} LtTotal(a: Bytes, b: Bytes)
    ensures Lt(a, b) || a == b || Lt(b, a)
  {
    if a != [] && b != [] && a[0] == b[0] {
      LtTotal(a[1..], b[1..]);
      assert a == [a[0]] + a[1..] && b == [b[0]] + b[1..];
    }
  }

  lemma LtAsymmetric(a: Bytes, b: Bytes)
    requires Lt(a, b)
    ensures !Lt(b, a) && a != b
  {
    LtIrreflexive(a);
    if Lt(b, a) { LtTransitive(a, b, a); }
  }

  /** Heads of equal length decide first, the tails break ties. */
  lemma {:induction false} LtConcat(a: Bytes, x: Bytes, b: Bytes, y: Bytes)
    requires |a| == |b|
    ensures Lt(a + x, b + y) <==> Lt(a, b) || (a == b && Lt(x, y))
  {
    if a == [] {
      assert a + x == x && b + y == y;
    } else {
      assert (a + x)[1..] == a[1..] + x && (b + y)[1..] == b[1..] + y;
      LtConcat(a[1..], x, b[1..], y);
      assert a == [a[0]] + a[1..] && b == [b[0]] + b[1..];
    }
  }

  /** A common prefix does not influence the order. */
  lemma LtPrefix(p: Bytes, x: Bytes, y: Bytes)
    ensures Lt(p + x, p + y) <==> Lt(x, y)
  {
    LtConcat(p, x, p, y);
    LtIrreflexive(p);
  }

  // ----------------------------------------------------------- big endian

  function Pow256(k: nat): (r: nat)
    ensures r > 0
  {
    if k == 0 then 1 else 256 * Pow256(k - 1)
  }

  lemma DivMod(n: nat, p: nat, k: nat)
    requires p > 0 && n < k * p
    ensures 0 <= n / p < k && 0 <= n % p < p && n == (n / p) * p + n % p
  {
    MulMono(k, n / p, p);
  }

  lemma MulMono(a: int, b: int, p: nat)
    ensures a <= b ==> a * p <= b * p
  {
  }

  /** `n` as exactly `k` bytes, most significant first. */
  function Be(n: nat, k: nat): (r: Bytes)
    requires n < Pow256(k)
    ensures |r| == k
  {
    if k == 0 then []
    else
      DivMod(n, Pow256(k - 1), 256);
      [n / Pow256(k - 1)] + Be(n % Pow256(k - 1), k - 1)
  }

  function FromBe(s: Bytes): (n: nat)
    ensures n < Pow256(|s|)
  {
    if s == [] then 0 else
      var rest := FromBe(s[1..]);
      MulMono(s[0], 255, Pow256(|s| - 1));
      s[0] * Pow256(|s| - 1) + rest
  }

  /** First byte and rest of a big-endian number. */
  lemma BeSplit(n: nat, k: nat) returns (q: byte, r: nat)
    requires k > 0 && n < Pow256(k)
    ensures r < Pow256(k - 1) && n == q * Pow256(k - 1) + r
    ensures Be(n, k) == [q] + Be(r, k - 1)
  {
    DivMod(n, Pow256(k - 1), 256);
    q, r := n / Pow256(k - 1), n % Pow256(k - 1);
  }

  lemma {:induction false} BeRoundTrip(n: nat, k: nat)
    requires n < Pow256(k)
    ensures FromBe(Be(n, k)) == n
  {
    if k > 0 {
      var q, r := BeSplit(n, k);
      BeRoundTrip(r, k - 1);
      FromBeCons(q, Be(r, k - 1));
    }
  }

  lemma FromBeCons(b: byte, s: Bytes)
    ensures FromBe([b] + s) == b * Pow256(|s|) + FromBe(s)
  {
    assert ([b] + s)[1..] == s;
  }

  lemma {:induction false} FromBeRoundTrip(s: Bytes)
    ensures Be(FromBe(s), |s|) == s
  {
    if s != [] {
      var p := Pow256(|s| - 1);
      var rest := FromBe(s[1..]);
      DivMod(FromBe(s), p, 256);
      QuotientUnique(s[0], rest, p);
      FromBeRoundTrip(s[1..]);
      assert s == [s[0]] + s[1..];
    }
  }

  lemma QuotientUnique(q: nat, r: nat, p: nat)
    requires r < p
    ensures (q * p + r) / p == q && (q * p + r) % p == r
  {
    var n := q * p + r;
    assert n == p * (n / p) + n % p;
    if n / p < q {
      MulMono(n / p + 1, q, p);
    } else if n / p > q {
      MulMono(q + 1, n / p, p);
    }
  }

  lemma QuotientOrder(a: nat, x: nat, b: nat, y: nat, p: nat)
    requires x < p && y < p
    ensures a * p + x < b * p + y <==> a < b || (a == b && x < y)
  {
    MulMono(a + 1, b, p);
    MulMono(b + 1, a, p);
  }

  /** Two numbers compare by their first bytes and then by the rest. */
  lemma BeSplitBoth(m: nat, n: nat, k: nat) returns (a: byte, x: nat, b: byte, y: nat)
    requires k > 0 && m < Pow256(k) && n < Pow256(k)
    ensures x < Pow256(k - 1) && y < Pow256(k - 1)
    ensures Be(m, k) == [a] + Be(x, k - 1) && Be(n, k) == [b] + Be(y, k - 1)
    ensures m < n <==> a < b || (a == b && x < y)
  {
    a, x := BeSplit(m, k);
    b, y := BeSplit(n, k);
    QuotientOrder(a, x, b, y, Pow256(k - 1));
  }

  /** Byte order of big-endian numbers is numeric order. */
  lemma {:induction false} BeOrder(m: nat, n: nat, k: nat)
    requires m < Pow256(k) && n < Pow256(k)
    ensures Lt(Be(m, k), Be(n, k)) <==> m < n
    decreases k
  {
    if k > 0 {
      var a, x, b, y := BeSplitBoth(m, n, k);
      BeOrder(x, y, k - 1);
      LtCons(a, Be(x, k - 1), b, Be(y, k - 1));
    }
  }

  lemma LtCons(a: byte, x: Bytes, b: byte, y: Bytes)
    ensures Lt([a] + x, [b] + y) <==> a < b || (a == b && Lt(x, y))
  {
    assert ([a] + x)[1..] == x && ([b] + y)[1..] == y;
  }

  lemma Pow256Of8()
    ensures Pow256(8) == TWO_64
  {
    assert Pow256(2) == 65536;
    assert Pow256(4) == 65536 * 65536;
    assert Pow256(6) == 65536 * 65536 * 65536;
  }

  /** The eight-byte form used in keys. */
  function Be64(n: u64): (r: Bytes)
    ensures |r| == 8
  {
    Pow256Of8();
    Be(n, 8)
  }

  function FromBe64(s: Bytes): u64
    requires |s| == 8
  {
    Pow256Of8();
    FromBe(s)
  }

  lemma FromBe64RoundTrip(s: Bytes)
    requires |s| == 8
    ensures Be64(FromBe64(s)) == s
  {
    Pow256Of8();
    FromBeRoundTrip(s);
  }

  lemma Be64Facts(m: u64, n: u64)
    ensures FromBe64(Be64(m)) == m
    ensures Lt(Be64(m), Be64(n)) <==> m < n
    ensures Be64(m) == Be64(n) <==> m == n
  {
    Pow256Of8();
    BeRoundTrip(m, 8);
    BeRoundTrip(n, 8);
    BeOrder(m, n, 8);
  }
}
