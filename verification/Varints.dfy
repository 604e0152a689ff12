/** Base-128 varints, written backwards into a sized buffer and read back with a
    limit of ten bytes. */
module Varints {
  import opened Bytes

  datatype WireError =
    | IntOverflow
    | UnexpectedEOF
    | InvalidLength
    | UnexpectedEndGroup
    | EndGroupOutside
    | IllegalWireType
    | IllegalTag
    | WrongWireType
    | Nested

  /** A value read from the front of some bytes, and how many bytes it took. */
  datatype Parsed<+T> = Parsed(value: T, used: nat) | Failed(error: WireError)

  const MAX_VARINT := 10

  // ------------------------------------------------------------- the format

  /** The shortest encoding of a number: seven bits a byte, lowest first, the top
      bit says that more follow. */
  function Varint(v: nat): (r: Bytes)
    ensures |r| >= 1
  {
    if v < 128 then [v] else [v % 128 + 128] + Varint(v / 128)
  }

  /** Reading at most ten bytes, `k` of which are gone; nothing is cut off yet. */
  function VarintAt(s: Bytes, k: nat): (r: Parsed<nat>)
    ensures r.Parsed? ==> 1 <= r.used <= |s| && k + r.used <= MAX_VARINT
    decreases |s|
  {
    if k >= MAX_VARINT then Failed(IntOverflow)
    else if s == [] then Failed(UnexpectedEOF)
    else if s[0] < 128 then Parsed(s[0], 1)
    else
      match VarintAt(s[1..], k + 1)
      case Failed(e) => Failed(e)
      case Parsed(v, n) => Parsed(s[0] - 128 + 128 * v, n + 1)
  }

  /** What follows the varint does not matter. */
  lemma {:induction false} VarintRoundTrip(v: nat, rest: Bytes, k: nat)
    requires k + |Varint(v)| <= MAX_VARINT
    ensures VarintAt(Varint(v) + rest, k) == Parsed(v, |Varint(v)|)
    decreases v
  {
    var s := Varint(v) + rest;
    if v >= 128 {
      assert s[1..] == Varint(v / 128) + rest;
      VarintRoundTrip(v / 128, rest, k + 1);
    }
  }

  /** A varint that was read is read the same from its own bytes alone ... */
  lemma {:induction false} VarintPrefix(s: Bytes, k: nat, n: nat)
    requires VarintAt(s, k).Parsed? && VarintAt(s, k).used <= n <= |s|
    ensures VarintAt(s[..n], k) == VarintAt(s, k)
    decreases |s|
  {
    if s[0] >= 128 {
      assert s[..n][1..] == s[1..][..n - 1];
      VarintPrefix(s[1..], k + 1, n - 1);
    }
  }

  /** ... and whatever comes behind them. */
  lemma {:induction false} VarintExtend(s: Bytes, rest: Bytes, k: nat)
    requires VarintAt(s, k).Parsed?
    ensures VarintAt(s + rest, k) == VarintAt(s, k)
    decreases |s|
  {
    if s[0] >= 128 {
      assert (s + rest)[1..] == s[1..] + rest;
      VarintExtend(s[1..], rest, k + 1);
    }
  }

  /** The form of a varint: up to ten bytes, and the last one alone below 128. */
  ghost predicate VarintForm(b: Bytes) {
    1 <= |b| <= 10 && b[|b| - 1] < 128 && forall i | 0 <= i < |b| - 1 :: b[i] >= 128
  }

  /** What the bytes are worth: seven bits each, the lowest first. */
  function VarintWorth(b: Bytes): nat {
    if b == [] then 0 else b[0] % 128 + 128 * VarintWorth(b[1..])
  }

  lemma {:induction false} ReadsForm(s: Bytes, k: nat)
    requires k <= 10 && VarintAt(s, k).Parsed?
    ensures var r := VarintAt(s, k);
            && k + r.used <= 10 && VarintForm(s[..r.used]) && r.value == VarintWorth(s[..r.used])
    decreases |s|
  {
    var r := VarintAt(s, k);
    var b := s[..r.used];
    if s[0] >= 128 {
      ReadsForm(s[1..], k + 1);
      assert b[1..] == s[1..][..r.used - 1];
      forall i | 0 <= i < |b| - 1 ensures b[i] >= 128 {
        if i > 0 { assert b[i] == b[1..][i - 1]; }
      }
    } else {
      assert b[1..] == [];
    }
  }

  lemma {:induction false} FormReads(s: Bytes, k: nat, n: nat)
    requires n <= |s| && k + n <= 10 && VarintForm(s[..n])
    ensures VarintAt(s, k) == Parsed(VarintWorth(s[..n]), n)
    decreases n
  {
    var b := s[..n];
    assert b[0] == s[0] && b[n - 1] == s[n - 1];
    if n > 1 {
      assert s[0] == b[0] >= 128;
      assert b[1..] == s[1..][..n - 1];
      forall i | 0 <= i < n - 2 ensures b[1..][i] >= 128 { assert b[1..][i] == b[i + 1]; }
      FormReads(s[1..], k + 1, n - 1);
    } else {
      assert b[1..] == [];
    }
  }

  /** A read that fails has seen ten bytes, or all there are, and every one of
      them says that more follow. */
  lemma {:induction false} ReadFails(s: Bytes, k: nat)
    requires k <= 10
    ensures VarintAt(s, k) == Failed(IntOverflow) <==> |s| >= 10 - k && forall i | 0 <= i < 10 - k :: s[i] >= 128
    ensures VarintAt(s, k) == Failed(UnexpectedEOF) <==> |s| < 10 - k && forall i | 0 <= i < |s| :: s[i] >= 128
    ensures VarintAt(s, k).Failed? ==> VarintAt(s, k).error in {IntOverflow, UnexpectedEOF}
    decreases |s|
  {
    if k < 10 && s != [] && s[0] >= 128 {
      ReadFails(s[1..], k + 1);
      assert forall i | 0 < i < |s| :: s[i] == s[1..][i - 1];
      assert forall i | 0 <= i < |s| - 1 :: s[1..][i] == s[i + 1];
    }
  }

  /** The encoding of a number has the form of a varint, apart from its length,
      is worth the number, and is the shortest of this kind. */
  lemma {:induction false} VarintIs(v: nat)
    ensures var b := Varint(v);
            && b[|b| - 1] < 128 && (forall i | 0 <= i < |b| - 1 :: b[i] >= 128)
            && VarintWorth(b) == v && (|b| > 1 ==> b[|b| - 1] != 0)
    decreases v
  {
    var b := Varint(v);
    if v < 128 {
      assert b[1..] == [];
    } else {
      VarintIs(v / 128);
      assert b[1..] == Varint(v / 128);
      assert forall i | 0 < i < |b| :: b[i] == b[1..][i - 1];
    }
  }

  // ------------------------------------------------------------- the length

  /** The number of bits of a number. */
  function BitLen(x: nat): nat {
    if x == 0 then 0 else 1 + BitLen(x / 2)
  }

  /** The low bit set. */
  function OrOne(x: nat): nat {
    if x % 2 == 0 then x + 1 else x
  }

  function Sov(x: nat): nat {
    (BitLen(OrOne(x)) + 6) / 7
  }

  lemma BitLenOrOne(x: nat)
    ensures BitLen(OrOne(x)) == if x == 0 then 1 else BitLen(x)
  {
    assert OrOne(x) / 2 == x / 2;
  }

  lemma Halves(x: nat)
    ensures x / 2 / 2 / 2 / 2 / 2 / 2 / 2 == x / 128
  {
  }

  lemma BitLenSeven(x: nat)
    requires x >= 128
    ensures BitLen(x) == 7 + BitLen(x / 128)
  {
    var a := x / 2;
    var b := a / 2;
    var c := b / 2;
    var d := c / 2;
    var e := d / 2;
    var f := e / 2;
    var g := f / 2;
    assert BitLen(x) == 1 + BitLen(a) && BitLen(a) == 1 + BitLen(b) && BitLen(b) == 1 + BitLen(c);
    assert BitLen(c) == 1 + BitLen(d) && BitLen(d) == 1 + BitLen(e) && BitLen(e) == 1 + BitLen(f);
    assert BitLen(f) == 1 + BitLen(g);
    Halves(x);
  }

  function PowerOfTwo(k: nat): nat {
    if k == 0 then 1 else 2 * PowerOfTwo(k - 1)
  }

  lemma {:induction false} BitLenBound(x: nat, k: nat)
    requires x < PowerOfTwo(k)
    ensures BitLen(x) <= k
    decreases k
  {
    if x > 0 { BitLenBound(x / 2, k - 1); }
  }

  lemma BitLenSmall(x: nat)
    requires 1 <= x < 128
    ensures 1 <= BitLen(x) <= 7
  {
    assert PowerOfTwo(3) == 8 && PowerOfTwo(5) == 32;
    assert PowerOfTwo(7) == 128;
    BitLenBound(x, 7);
  }

  /** `Sov` is the length of the encoding. */
  lemma {:induction false} SovIsLength(x: nat)
    ensures Sov(x) == |Varint(x)|
    decreases x
  {
    BitLenOrOne(x);
    if x == 0 {
    } else if x < 128 {
      BitLenSmall(x);
    } else {
      SovIsLength(x / 128);
      BitLenSeven(x);
      BitLenOrOne(x / 128);
    }
  }

  /** `x` shifted left by `7 * k` bits. */
  function Shifted(x: nat, k: nat): (r: nat)
    ensures r >= x
  {
    if k == 0 then x else 128 * Shifted(x, k - 1)
  }

  lemma {:induction false} VarintLength(v: nat, k: nat)
    requires v < Shifted(1, k) && k > 0
    ensures |Varint(v)| <= k
    decreases k
  {
    if v >= 128 { VarintLength(v / 128, k - 1); }
  }

  /** A 64-bit number takes at most ten bytes. */
  lemma U64Length(v: u64)
    ensures |Varint(v)| <= MAX_VARINT
  {
    assert Shifted(1, 10) == 0x40_0000_0000_0000_0000;
    VarintLength(v, 10);
  }

  // ---------------------------------------------------- writing and reading

  /** The bytes of `v` from the `n`-th on are those of `rest`. */
  lemma NextByte(v: nat, n: nat, rest: nat)
    requires n + |Varint(rest)| == |Varint(v)| && Varint(v)[n..] == Varint(rest)
    ensures Varint(v)[n] == if rest < 128 then rest else rest % 128 + 128
    ensures rest >= 128 ==> |Varint(rest)| == 1 + |Varint(rest / 128)| && Varint(v)[n + 1..] == Varint(rest / 128)
  {
    assert Varint(v)[n] == Varint(rest)[0];
    assert Varint(v)[n + 1..] == Varint(rest)[1..];
  }

  lemma Pieces(was: Bytes, now: Bytes, base: nat, offset: nat, middle: Bytes)
    requires |was| == |now| && base + |middle| == offset <= |was|
    requires forall j | 0 <= j < |was| :: now[j] == if base <= j < offset then middle[j - base] else was[j]
    ensures now == was[..base] + middle + was[offset..]
  {
  }

  /** Write a varint that ends before `offset`; the result is where it starts. */
  method EncodeVarint(dAtA: array<byte>, offset: nat, v: u64) returns (base: nat)
    requires Sov(v) <= offset <= dAtA.Length
    modifies dAtA
    ensures base == offset - Sov(v)
    ensures dAtA[..] == old(dAtA[..base]) + Varint(v) + old(dAtA[offset..])
  {
    SovIsLength(v);
    base := offset - Sov(v);
    ghost var was, bytes := dAtA[..], Varint(v);
    var i, rest: nat := base, v;
    while rest >= 128
      invariant base <= i && i + |Varint(rest)| == offset
      invariant bytes[i - base..] == Varint(rest)
      invariant forall j | 0 <= j < dAtA.Length :: dAtA[j] == if base <= j < i then bytes[j - base] else was[j]
      decreases rest
    {
      NextByte(v, i - base, rest);
      dAtA[i] := rest % 128 + 128;
      rest := rest / 128;
      i := i + 1;
    }
    NextByte(v, i - base, rest);
    dAtA[i] := rest;
    Pieces(was, dAtA[..], base, offset, bytes);
  }

  /** `r` read behind `k` bytes that are worth `sum` together. */
  function Continued(sum: nat, k: nat, r: Parsed<nat>): Parsed<nat> {
    match r
    case Failed(e) => Failed(e)
    case Parsed(v, n) => Parsed(sum + Shifted(v, k), k + n)
  }

  lemma {:induction false} ShiftedSum(a: nat, v: nat, k: nat)
    ensures Shifted(a + 128 * v, k) == Shifted(a, k) + Shifted(v, k + 1)
  {
    if k > 0 { ShiftedSum(a, v, k - 1); }
  }

  lemma ContinuedByOne(sum: nat, k: nat, s: Bytes)
    requires s != [] && s[0] >= 128 && k < MAX_VARINT
    ensures Continued(sum, k, VarintAt(s, k)) == Continued(sum + Shifted(s[0] - 128, k), k + 1, VarintAt(s[1..], k + 1))
  {
    var r := VarintAt(s[1..], k + 1);
    if r.Parsed? { ShiftedSum(s[0] - 128, r.value, k); }
  }

  /** A number cut off to the width of a variable: the remainder modulo `width`. */
  function Wrap(x: nat, width: nat): (r: nat)
    requires width > 0
    ensures r < width
    decreases x
  {
    if x < width then x else Wrap(x - width, width)
  }

  lemma {:induction false} WrapAdd(x: nat, y: nat, width: nat)
    requires width > 0
    ensures Wrap(Wrap(x, width) + y, width) == Wrap(x + y, width)
    decreases x
  {
    if x >= width { WrapAdd(x - width, y, width); }
  }

  lemma {:induction false} WrapIsRemainder(x: nat, width: nat) returns (q: nat)
    requires width > 0
    ensures x == width * q + Wrap(x, width)
    decreases x
  {
    if x < width {
      q := 0;
    } else {
      var p := WrapIsRemainder(x - width, width);
      q := p + 1;
    }
  }

  /** Seven more bits in a variable of some width. */
  function Collect(acc: nat, low: nat, k: nat, width: nat): nat
    requires width > 0
  {
    Wrap(acc + Shifted(low, k), width)
  }

  lemma CollectKeeps(sum: nat, low: nat, k: nat, width: nat)
    requires width > 0
    ensures Collect(Wrap(sum, width), low, k, width) == Wrap(sum + Shifted(low, k), width)
  {
    WrapAdd(sum, Shifted(low, k), width);
  }

  /** The value of a varint in a variable of some width. */
  function VarintIn(s: Bytes, width: nat): (r: Parsed<nat>)
    requires width > 0
    ensures r.Parsed? ==> 1 <= r.used <= |s|
  {
    match VarintAt(s, 0)
    case Failed(e) => Failed(e)
    case Parsed(v, n) => Parsed(Wrap(v, width), n)
  }

  /** Reading a varint in a variable of some width: what succeeds, with which
      value, and how it fails. */
  lemma VarintInMeans(s: Bytes, width: nat, n: nat, v: nat)
    requires width > 0
    ensures VarintIn(s, width) == Parsed(v, n) <==>
            n <= |s| && VarintForm(s[..n]) && v == VarintWorth(s[..n]) % width
    ensures VarintIn(s, width) == Failed(IntOverflow) <==> |s| >= 10 && forall i | 0 <= i < 10 :: s[i] >= 128
    ensures VarintIn(s, width) == Failed(UnexpectedEOF) <==> |s| < 10 && forall i | 0 <= i < |s| :: s[i] >= 128
    ensures VarintIn(s, width).Failed? ==> VarintIn(s, width).error in {IntOverflow, UnexpectedEOF}
  {
    ReadFails(s, 0);
    var r := VarintAt(s, 0);
    if r.Parsed? {
      ReadsForm(s, 0);
      WrapIsMod(r.value, width);
    }
    if n <= |s| && VarintForm(s[..n]) {
      FormReads(s, 0, n);
      WrapIsMod(VarintWorth(s[..n]), width);
    }
  }

  lemma WrapIsMod(x: nat, width: nat)
    requires width > 0
    ensures Wrap(x, width) == x % width
  {
    var q := WrapIsRemainder(x, width);
    ModOf(x, width, q, Wrap(x, width));
  }

  lemma ModOf(x: nat, width: nat, q: nat, r: nat)
    requires r < width && x == width * q + r
    ensures x % width == r
  {
    var p := x / width;
    assert x == width * p + x % width;
    if p < q {
      MulMono(p + 1, q, width);
    } else if p > q {
      MulMono(q + 1, p, width);
    }
  }

  lemma VarintInExtend(s: Bytes, rest: Bytes, width: nat)
    requires width > 0 && VarintIn(s, width).Parsed?
    ensures VarintIn(s + rest, width) == VarintIn(s, width)
  {
    VarintExtend(s, rest, 0);
  }

  /** A number that fits the variable is read back in full. */
  lemma VarintInReads(v: nat, rest: Bytes, width: nat)
    requires v < width <= TWO_64
    ensures VarintIn(Varint(v) + rest, width) == Parsed(v, |Varint(v)|)
  {
    U64Length(v);
    VarintRoundTrip(v, rest, 0);
  }

  /** `k` bytes of the varint at the front of `s` are collected in `acc`. */
  ghost predicate Reading(s: Bytes, k: nat, sum: nat, acc: nat, width: nat)
    requires width > 0
  {
    && k <= MAX_VARINT && k <= |s|
    && VarintAt(s, 0) == Continued(sum, k, VarintAt(s[k..], k))
    && acc == Wrap(sum, width)
  }

  lemma ReadingStarts(s: Bytes, width: nat)
    requires width > 0
    ensures Reading(s, 0, 0, 0, width)
  {
    assert s[0..] == s;
  }

  lemma OneByteMore(s: Bytes, k: nat, sum: nat)
    requires k < MAX_VARINT && k < |s| && s[k] >= 128
    ensures Continued(sum, k, VarintAt(s[k..], k)) ==
            Continued(sum + Shifted(s[k] % 128, k), k + 1, VarintAt(s[k + 1..], k + 1))
  {
    assert s[k] % 128 == s[k] - 128;
    assert s[k..][1..] == s[k + 1..];
    ContinuedByOne(sum, k, s[k..]);
  }

  lemma ReadingContinues(s: Bytes, k: nat, sum: nat, acc: nat, width: nat)
    requires width > 0 && Reading(s, k, sum, acc, width) && k < MAX_VARINT && k < |s| && s[k] >= 128
    ensures Reading(s, k + 1, sum + Shifted(s[k] % 128, k), Collect(acc, s[k] % 128, k, width), width)
  {
    OneByteMore(s, k, sum);
    CollectKeeps(sum, s[k] % 128, k, width);
  }

  lemma ReadingFails(s: Bytes, k: nat, sum: nat, acc: nat, width: nat)
    requires width > 0 && Reading(s, k, sum, acc, width) && (k == MAX_VARINT || k == |s|)
    ensures VarintIn(s, width) == Failed(if k == MAX_VARINT then IntOverflow else UnexpectedEOF)
  {
    assert k == |s| ==> s[k..] == [];
  }

  lemma ReadingEnds(s: Bytes, k: nat, sum: nat, acc: nat, width: nat)
    requires width > 0 && Reading(s, k, sum, acc, width) && k < MAX_VARINT && k < |s| && s[k] < 128
    ensures VarintIn(s, width) == Parsed(Collect(acc, s[k] % 128, k, width), k + 1)
  {
    var t, b := s[k..], s[k];
    assert t[0] == b;
    LastByte(sum, k, t);
    CollectKeeps(sum, b % 128, k, width);
  }

  lemma LastByte(sum: nat, k: nat, t: Bytes)
    requires t != [] && t[0] < 128 && k < MAX_VARINT
    ensures Continued(sum, k, VarintAt(t, k)) == Parsed(sum + Shifted(t[0] % 128, k), k + 1)
  {
    assert t[0] % 128 == t[0];
  }

  /** Read a varint at an index; the value is cut off to the width of the variable
      it is collected in. The bytes have disjoint bits, so collecting adds them. */
  method ReadVarint(dAtA: Bytes, iNdEx: nat, width: nat) returns (r: Parsed<nat>)
    requires iNdEx <= |dAtA| && width > 0
    ensures r == VarintIn(dAtA[iNdEx..], width)
  {
    ghost var s, sum: nat := dAtA[iNdEx..], 0;
    var k, acc: nat := 0, 0;
    ReadingStarts(s, width);
    while true
      invariant Reading(s, k, sum, acc, width)
      decreases MAX_VARINT - k
    {
      if k >= MAX_VARINT {
        ReadingFails(s, k, sum, acc, width);
        return Failed(IntOverflow);
      }
      if iNdEx + k >= |dAtA| {
        ReadingFails(s, k, sum, acc, width);
        return Failed(UnexpectedEOF);
      }
      var b := dAtA[iNdEx + k];
      ghost var was := acc;
      acc := Collect(acc, b % 128, k, width);
      if b < 128 {
        ReadingEnds(s, k, sum, was, width);
        return Parsed(acc, k + 1);
      }
      ReadingContinues(s, k, sum, was, width);
      sum := sum + Shifted(b % 128, k);
      k := k + 1;
    }
  }
}
