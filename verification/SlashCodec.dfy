/** Keys of piped validator-set events: the writer that fills a byte buffer and
    the reader that takes it apart with 8-bit index arithmetic. */
module SlashCodec {
  import opened Bytes
  import opened Types
  import opened Keys

  const OP_UNDEFINED: byte := 0
  const OP_BONDED: byte := 1
  const OP_UNBONDED: byte := 2
  const OP_JAILED: byte := 3
  const OP_TOMBSTONED: byte := 4
  const OP_UNJAILED: byte := 5
  const OP_MODIFIED: byte := 6
  const OP_SLASHED: byte := 7

  datatype SlashInfo = SlashInfo(
    infractionHeight: i64,
    power: i64,
    totalSlashAmount: Bytes,
    slashFraction: Bytes)

  /** Conversion to an 8-bit number. */
  function U8(n: nat): (r: byte)
    ensures n < 256 ==> r == n
    ensures 256 <= n < 512 ==> r == n - 256
    ensures 512 <= n < 768 ==> r == n - 512
  {
    if n < 256 then n else U8(n - 256)
  }

  // ----------------------------------------------------------------- writer

  /** The part of the key that only slash events have. */
  function SlashPart(i: SlashInfo): Bytes {
    Be64(ToU64(i.infractionHeight)) + Be64(ToU64(i.power))
    + [U8(|i.totalSlashAmount|)] + i.totalSlashAmount + i.slashFraction
  }

  /** The layout of a key, without the store prefix. */
  function PipedBody(op: byte, val: Addr, info: Option<SlashInfo>): Bytes {
    [U8(|val|)] + val + [op] + if op == OP_SLASHED && info.Some? then SlashPart(info.value) else []
  }

  function PipedKey(op: byte, val: Addr, info: Option<SlashInfo>): Bytes {
    PIPED_VALSET_PREFIX + PipedBody(op, val, info)
  }

  /** The bytes of the key: 0x05, the length of the address, the address, the
      code; for a slash then eight bytes each of height and power, the length of
      the amount, the amount and the fraction. */
  lemma KeyLayout(op: byte, val: Addr, i: SlashInfo)
    requires |val| <= 255
    ensures op != 7 ==> PipedKey(op, val, Some(i)) == [0x05, |val|] + val + [op]
    ensures PipedKey(op, val, None) == [0x05, |val|] + val + [op]
    ensures PipedKey(7, val, Some(i)) ==
            [0x05, |val|] + val + [7] + Be64(ToU64(i.infractionHeight)) + Be64(ToU64(i.power))
            + [|i.totalSlashAmount| % 256] + i.totalSlashAmount + i.slashFraction
  {
    U8IsRemainder(|i.totalSlashAmount|);
    assert [0x05] + ([|val|] + val + [op]) == [0x05, |val|] + val + [op];
    var h, p, n, a, f := Be64(ToU64(i.infractionHeight)), Be64(ToU64(i.power)), [U8(|i.totalSlashAmount|)],
                         i.totalSlashAmount, i.slashFraction;
    assert [0x05] + ([|val|] + val + [7] + (h + p + n + a + f)) == [0x05, |val|] + val + [7] + h + p + n + a + f;
  }

  lemma {:induction false} U8IsRemainder(n: nat)
    ensures U8(n) == n % 256
  {
    if n >= 256 { U8IsRemainder(n - 256); }
  }

  /** The built-in `copy` at an index: what is written so far grows by `src`. */
  method Copy(dst: array<byte>, at: nat, src: Bytes)
    requires at + |src| <= dst.Length
    modifies dst
    ensures dst[..at + |src|] == old(dst[..at]) + src
  {
    forall i | 0 <= i < |src| {
      dst[at + i] := src[i];
    }
  }

  method Put(dst: array<byte>, at: nat, b: byte)
    requires at < dst.Length
    modifies dst
    ensures dst[..at + 1] == old(dst[..at]) + [b]
  {
    dst[at] := b;
  }

  method BuildPipedValsetOpKey(op: byte, val: Addr, slashInfo: Option<SlashInfo>) returns (key: Result<Bytes>)
    ensures key.Ok? <==> op != OP_UNDEFINED && (op == OP_SLASHED ==> slashInfo.Some?) && |val| <= 255
    ensures key == if key.Ok? then Ok(PipedKey(op, val, slashInfo)) else Err(Panicked)
  {
    if op == OP_UNDEFINED {
      return Err(Panicked);
    }
    var an, sn := |val|, 0;
    if op == OP_SLASHED {
      if slashInfo.None? {
        return Err(Panicked);
      }
      sn := 8 + 8 + 1 + |slashInfo.value.totalSlashAmount| + |slashInfo.value.slashFraction|;
    }
    var r := new byte[1 + an + sn + 1 + 1](_ => 0);
    Copy(r, 0, PIPED_VALSET_PREFIX);
    if an > 255 {
      return Err(Panicked);
    }
    Copy(r, 1, [U8(an)] + val);
    Put(r, 1 + an + 1, op);
    ghost var head := PIPED_VALSET_PREFIX + ([U8(an)] + val) + [op];
    assert r[..an + 3] == head;
    if op == OP_SLASHED {
      WriteSlashPart(r, 1 + an + 1 + 1, slashInfo.value);
    }
    PipedKeyParts(op, val, slashInfo);
    assert r[..] == r[..r.Length];
    return Ok(r[..]);
  }

  lemma PipedKeyParts(op: byte, val: Addr, info: Option<SlashInfo>)
    ensures var head := PIPED_VALSET_PREFIX + ([U8(|val|)] + val) + [op];
            PipedKey(op, val, info) == if op == OP_SLASHED && info.Some? then head + SlashPart(info.value) else head
  {
    var addr := [U8(|val|)] + val;
    var tail := if op == OP_SLASHED && info.Some? then SlashPart(info.value) else [];
    Assoc(PIPED_VALSET_PREFIX, addr + [op], tail);
    Assoc(PIPED_VALSET_PREFIX, addr, [op]);
  }

  lemma Assoc(a: Bytes, b: Bytes, c: Bytes)
    ensures a + (b + c) == (a + b) + c
  {
  }

  /** The slash fields, written into the rest of the buffer. */
  method WriteSlashPart(r: array<byte>, at: nat, info: SlashInfo)
    requires r.Length == at + 8 + 8 + 1 + |info.totalSlashAmount| + |info.slashFraction|
    modifies r
    ensures r[..r.Length] == old(r[..at]) + SlashPart(info)
  {
    var tn := |info.totalSlashAmount|;
    ghost var head := r[..at];
    ghost var h, p := Be64(ToU64(info.infractionHeight)), Be64(ToU64(info.power));
    Copy(r, at, Be64(ToU64(info.infractionHeight)));
    Copy(r, at + 8, Be64(ToU64(info.power)));
    Put(r, at + 8 + 8, U8(tn));
    Copy(r, at + 8 + 8 + 1, info.totalSlashAmount);
    Copy(r, at + 8 + 8 + 1 + tn, info.slashFraction);
    assert head + h + p + [U8(tn)] + info.totalSlashAmount + info.slashFraction == head + SlashPart(info);
  }

  // ----------------------------------------------------------------- reader

  datatype Piped = Piped(val: Addr, op: byte, slashInfo: Option<SlashInfo>)

  /** A slice expression; bounds out of order or out of range panic. */
  function Slice(key: Bytes, lo: nat, hi: nat): Option<Bytes> {
    if lo <= hi <= |key| then Some(key[lo..hi]) else None
  }

  /** Taking apart a key without its store prefix. Index arithmetic on the
      length bytes is 8-bit and wraps. */
  function ReadPiped(key: Bytes): Result<Piped> {
    if key == [] then Err(Panicked)
    else
      var addrLen: nat := key[0];
      var opAt := U8(addrLen + 1);
      var addr := Slice(key, 1, opAt);
      if addr.None? || opAt >= |key| then Err(Panicked)
      else if key[opAt] != OP_SLASHED then Ok(Piped(addr.value, key[opAt], None))
      else if |key| <= 1 + addrLen + 1 + 8 + 8 + 1 then Err(Invalid)
      else
        var info := ReadSlashInfo(key, addrLen);
        if info.None? then Err(Panicked) else Ok(Piped(addr.value, OP_SLASHED, info))
  }

  /** The slash fields; `None` is a panic of one of the slice expressions. */
  function ReadSlashInfo(key: Bytes, addrLen: nat): Option<SlashInfo> {
    if U8(addrLen + 2 + 8 + 8) >= |key| then None
    else
      var amountAt := U8(addrLen + 2 + 8 + 8 + 1);
      var amountEnd := U8(addrLen + 2 + 8 + 8 + 1 + key[U8(addrLen + 2 + 8 + 8)]);
      var power := Slice(key, U8(addrLen + 2), U8(addrLen + 2 + 8));
      var infractionHeight := Slice(key, U8(addrLen + 2 + 8), U8(addrLen + 2 + 8 + 8));
      var amount := Slice(key, amountAt, amountEnd);
      var fraction := Slice(key, amountEnd, |key|);
      if power.None? || |power.value| != 8 || infractionHeight.None? || |infractionHeight.value| != 8
         || amount.None? || fraction.None? then None
      else
        Some(SlashInfo(ToI64(FromBe64(infractionHeight.value)), ToI64(FromBe64(power.value)),
                       amount.value, fraction.value))
  }

  /** The reader takes the first number for the power and the second for the
      height, the writer puts them the other way round. */
  function Swapped(i: SlashInfo): SlashInfo {
    i.(infractionHeight := i.power, power := i.infractionHeight)
  }

  /** When the 8-bit indices of the reader reach every part of the key, and the
      reader's length check passes. */
  predicate Fits(op: byte, val: Addr, info: Option<SlashInfo>) {
    if op == OP_SLASHED && info.Some? then
      |val| + 19 + |info.value.totalSlashAmount| <= 255
      && (info.value.totalSlashAmount != [] || info.value.slashFraction != [])
    else
      |val| <= 254
  }

  function Expected(op: byte, val: Addr, info: Option<SlashInfo>): Piped {
    Piped(val, op, if op == OP_SLASHED && info.Some? then Some(Swapped(info.value)) else None)
  }

  lemma SignedRoundTrip(i: i64)
    ensures ToI64(ToU64(i)) == i
  {
  }

  lemma PlainRoundTrip(op: byte, val: Addr, info: Option<SlashInfo>)
    requires op != OP_SLASHED && |val| <= 255
    ensures ReadPiped(PipedBody(op, val, info)) == Ok(Expected(op, val, info)) <==> |val| <= 254
  {
    var key := PipedBody(op, val, info);
    if |val| <= 254 {
      assert key[1..|val| + 1] == val && key[|val| + 1] == op;
    }
  }

  lemma SlashParts(val: Addr, i: SlashInfo)
    requires |val| <= 255
    ensures var key := PipedBody(OP_SLASHED, val, Some(i));
            var n, tn := |val|, |i.totalSlashAmount|;
            && |key| == n + 19 + tn + |i.slashFraction|
            && key[0] == n && key[1..n + 1] == val && key[n + 1] == OP_SLASHED
            && key[n + 2..n + 10] == Be64(ToU64(i.infractionHeight))
            && key[n + 10..n + 18] == Be64(ToU64(i.power))
            && key[n + 18] == U8(tn)
            && key[n + 19..n + 19 + tn] == i.totalSlashAmount
            && key[n + 19 + tn..] == i.slashFraction
  {
    var key := PipedBody(OP_SLASHED, val, Some(i));
    var n, tn := |val|, |i.totalSlashAmount|;
    var head := [U8(n)] + val + [OP_SLASHED];
    assert key == head + SlashPart(i);
    assert forall a, b | 0 <= a <= b <= |SlashPart(i)| :: key[n + 2 + a..n + 2 + b] == SlashPart(i)[a..b];
    assert SlashPart(i)[0..8] == Be64(ToU64(i.infractionHeight));
    assert SlashPart(i)[8..16] == Be64(ToU64(i.power));
    assert SlashPart(i)[17..17 + tn] == i.totalSlashAmount;
    assert SlashPart(i)[17 + tn..|SlashPart(i)|] == i.slashFraction;
    assert SlashPart(i)[16] == U8(tn);
  }

  lemma PartsFit(key: Bytes, n: nat, i: SlashInfo)
    requires var tn := |i.totalSlashAmount|;
             && n + 19 + tn <= 255 && |key| == n + 19 + tn + |i.slashFraction| && n + 19 < |key|
             && key[n + 2..n + 10] == Be64(ToU64(i.infractionHeight))
             && key[n + 10..n + 18] == Be64(ToU64(i.power))
             && key[n + 18] == U8(tn)
             && key[n + 19..n + 19 + tn] == i.totalSlashAmount
             && key[n + 19 + tn..] == i.slashFraction
    ensures ReadSlashInfo(key, n) == Some(Swapped(i))
  {
    var tn := |i.totalSlashAmount|;
    assert U8(n + 18) == n + 18 && U8(n + 19) == n + 19 && U8(n + 19 + tn) == n + 19 + tn && U8(tn) == tn;
    assert key[n + 19 + tn..|key|] == i.slashFraction;
    NumbersRoundTrip(i);
  }

  lemma SlashFits(val: Addr, i: SlashInfo)
    requires Fits(OP_SLASHED, val, Some(i))
    ensures ReadSlashInfo(PipedBody(OP_SLASHED, val, Some(i)), |val|) == Some(Swapped(i))
  {
    SlashParts(val, i);
    PartsFit(PipedBody(OP_SLASHED, val, Some(i)), |val|, i);
  }

  lemma NumbersRoundTrip(i: SlashInfo)
    ensures ToI64(FromBe64(Be64(ToU64(i.power)))) == i.power
    ensures ToI64(FromBe64(Be64(ToU64(i.infractionHeight)))) == i.infractionHeight
  {
    SignedRoundTrip(i.power);
    SignedRoundTrip(i.infractionHeight);
    Be64Facts(ToU64(i.power), ToU64(i.infractionHeight));
    Be64Facts(ToU64(i.infractionHeight), ToU64(i.power));
  }

  /** Past the bound the two strings come out with other lengths, if at all. */
  lemma SlashDoesNotFit(key: Bytes, n: nat, tn: nat, fn: nat)
    requires n <= 254 && |key| == n + 19 + tn + fn
    requires n + 18 <= 255 ==> key[n + 18] == U8(tn)
    requires n + 19 + tn > 255
    ensures var r := ReadSlashInfo(key, n);
            r.Some? ==> |r.value.totalSlashAmount| != tn || |r.value.slashFraction| != fn
  {
    var r := ReadSlashInfo(key, n);
    if r.Some? {
      var at := U8(n + 19);
      var end := U8(n + 19 + key[U8(n + 18)]);
      assert |r.value.totalSlashAmount| == end - at && |r.value.slashFraction| == |key| - end;
    }
  }

  /** Reading a written key gives the event back, power and height exchanged,
      exactly when the key fits the reader. */
  lemma PipedRoundTrip(op: byte, val: Addr, info: Option<SlashInfo>)
    requires op == OP_SLASHED ==> info.Some?
    requires |val| <= 255
    ensures ReadPiped(PipedBody(op, val, info)) == Ok(Expected(op, val, info)) <==> Fits(op, val, info)
  {
    if op == OP_SLASHED {
      SlashParts(val, info.value);
      if Fits(op, val, info) {
        SlashFits(val, info.value);
      } else if |val| <= 254 && |val| + 19 + |info.value.totalSlashAmount| > 255 {
        SlashDoesNotFit(PipedBody(op, val, info), |val|, |info.value.totalSlashAmount|, |info.value.slashFraction|);
      }
    } else {
      PlainRoundTrip(op, val, info);
    }
  }
}
