/** Writing messages backwards into a sized buffer, and reading them with a moving
    index. */
module Marshalling {
  import opened Bytes
  import opened Varints
  import opened Skip
  import opened Decoding
  import opened Messages
  import Types

  // ----------------------------------------------------------------- writing

  /** The bytes between `i` and `end` are `done`; the others are as they were. */
  ghost predicate Filled(now: Bytes, was: Bytes, i: nat, done: Bytes, end: nat) {
    i + |done| == end <= |was| && now == was[..i] + done + was[end..]
  }

  lemma FilledMore(now: Bytes, was: Bytes, i: nat, done: Bytes, end: nat, b: Bytes)
    requires |b| <= i && Filled(now, was, i, done, end)
    ensures Filled(now[..i - |b|] + b + now[i..], was, i - |b|, b + done, end)
  {
    assert now[..i - |b|] == was[..i - |b|];
    assert now[i..] == done + was[end..];
    assert was[..i - |b|] + b + (done + was[end..]) == was[..i - |b|] + (b + done) + was[end..];
  }

  /** Copy some bytes to where they end at `end`. */
  method PutBytes(dAtA: array<byte>, end: nat, b: Bytes) returns (i: nat)
    requires |b| <= end <= dAtA.Length
    modifies dAtA
    ensures i == end - |b|
    ensures dAtA[..] == old(dAtA[..i]) + b + old(dAtA[end..])
  {
    i := end - |b|;
    ghost var was := dAtA[..];
    for k := 0 to |b|
      invariant forall j | 0 <= j < dAtA.Length :: dAtA[j] == if i <= j < i + k then b[j - i] else was[j]
    {
      dAtA[i + k] := b[k];
    }
    Pieces(was, dAtA[..], i, end, b);
  }

  /** A payload with its length and tag in front of it. */
  method PutLenField(dAtA: array<byte>, end: nat, tag: byte, b: Bytes) returns (i: nat)
    requires LenSize(|b|) <= end <= dAtA.Length && |b| < TWO_64
    modifies dAtA
    ensures i == end - |LenField(tag, b)|
    ensures dAtA[..] == old(dAtA[..i]) + LenField(tag, b) + old(dAtA[end..])
  {
    FieldSizes(tag, b, 0);
    SovIsLength(|b|);
    ghost var was := dAtA[..];
    i := PutBytes(dAtA, end, b);
    FilledMore(dAtA[..], was, i, b, end, Varint(|b|));
    i := EncodeVarint(dAtA, i, |b|);
    FilledMore(dAtA[..], was, i, Varint(|b|) + b, end, [tag]);
    i := PutBytes(dAtA, i, [tag]);
  }

  method PutNumberField(dAtA: array<byte>, end: nat, tag: byte, v: u64) returns (i: nat)
    requires v != 0 && 1 + Sov(v) <= end <= dAtA.Length
    modifies dAtA
    ensures i == end - |NumberField(tag, v)|
    ensures dAtA[..] == old(dAtA[..i]) + NumberField(tag, v) + old(dAtA[end..])
  {
    SovIsLength(v);
    ghost var was := dAtA[..];
    i := EncodeVarint(dAtA, end, v);
    FilledMore(dAtA[..], was, i, Varint(v), end, [tag]);
    i := PutBytes(dAtA, i, [tag]);
  }

  /** A field that is left out when it is empty. */
  method PutStringField(dAtA: array<byte>, end: nat, tag: byte, b: Bytes) returns (i: nat)
    requires |StringField(tag, b)| <= end <= dAtA.Length && |b| < TWO_64
    modifies dAtA
    ensures i == end - |StringField(tag, b)|
    ensures dAtA[..] == old(dAtA[..i]) + StringField(tag, b) + old(dAtA[end..])
  {
    i := end;
    if |b| > 0 {
      FieldSizes(tag, b, 0);
      i := PutLenField(dAtA, end, tag, b);
    }
  }

  method PutOptionalNumber(dAtA: array<byte>, end: nat, tag: byte, v: u64) returns (i: nat)
    requires |NumberField(tag, v)| <= end <= dAtA.Length
    modifies dAtA
    ensures i == end - |NumberField(tag, v)|
    ensures dAtA[..] == old(dAtA[..i]) + NumberField(tag, v) + old(dAtA[end..])
  {
    i := end;
    if v != 0 {
      FieldSizes(tag, [], v);
      i := PutNumberField(dAtA, end, tag, v);
    }
  }

  /** The bytes from `i` on are `tail`; those before are as they were. */
  ghost predicate Written(now: Bytes, was: Bytes, i: nat, tail: Bytes) {
    i <= |was| && now == was[..i] + tail
  }

  /** A part written in front of the tail. */
  lemma WrittenMore(now: Bytes, next: Bytes, was: Bytes, i: nat, j: nat, part: Bytes, tail: Bytes)
    requires Written(now, was, i, tail) && j + |part| == i
    requires next == now[..j] + part + now[i..]
    ensures Written(next, was, j, part + tail)
  {
    assert now[..j] == was[..j] && now[i..] == tail;
  }

  lemma WrittenFirst(now: Bytes, was: Bytes, j: nat, part: Bytes)
    requires j + |part| == |was| && now == was[..j] + part + was[|was|..]
    ensures Written(now, was, j, part)
  {
  }

  /** The parts of a message, last one first. */
  method PutParams(dAtA: array<byte>, coin: Bytes, epochLength: Types.u32, maxGas: Types.u32) returns (i: nat)
    requires |ParamsBytes(coin, epochLength, maxGas)| <= dAtA.Length < TWO_64
    modifies dAtA
    ensures i == dAtA.Length - |ParamsBytes(coin, epochLength, maxGas)|
    ensures dAtA[..] == old(dAtA[..i]) + ParamsBytes(coin, epochLength, maxGas)
  {
    ghost var was := dAtA[..];
    ghost var f2, f3 := NumberField(0x10, epochLength), NumberField(0x18, maxGas);
    FieldSizes(0xa, coin, 0);
    var k := PutOptionalNumber(dAtA, dAtA.Length, 0x18, maxGas);
    ghost var after3 := dAtA[..];
    WrittenFirst(after3, was, k, f3);
    var j := PutOptionalNumber(dAtA, k, 0x10, epochLength);
    ghost var after2 := dAtA[..];
    WrittenMore(after3, after2, was, k, j, f2, f3);
    i := PutLenField(dAtA, j, 0xa, coin);
    WrittenMore(after2, dAtA[..], was, j, i, LenField(0xa, coin), f2 + f3);
  }

  method PutSetMaxCap(dAtA: array<byte>, authority: Bytes, contract: Bytes, coin: Bytes) returns (i: nat)
    requires |SetMaxCapBytes(authority, contract, coin)| <= dAtA.Length < TWO_64
    modifies dAtA
    ensures i == dAtA.Length - |SetMaxCapBytes(authority, contract, coin)|
    ensures dAtA[..] == old(dAtA[..i]) + SetMaxCapBytes(authority, contract, coin)
  {
    ghost var was := dAtA[..];
    ghost var f1, f2, f3 := StringField(0xa, authority), StringField(0x12, contract), LenField(0x1a, coin);
    FieldSizes(0x1a, coin, 0);
    var k := PutLenField(dAtA, dAtA.Length, 0x1a, coin);
    ghost var after3 := dAtA[..];
    WrittenFirst(after3, was, k, f3);
    var j := PutStringField(dAtA, k, 0x12, contract);
    ghost var after2 := dAtA[..];
    WrittenMore(after3, after2, was, k, j, f2, f3);
    i := PutStringField(dAtA, j, 0xa, authority);
    WrittenMore(after2, dAtA[..], was, j, i, f1, f2 + f3);
  }

  method PutWork(dAtA: array<byte>, repeat: bool) returns (i: nat)
    requires |WorkBytes(repeat)| <= dAtA.Length
    modifies dAtA
    ensures i == dAtA.Length - |WorkBytes(repeat)| && dAtA[..] == old(dAtA[..i]) + WorkBytes(repeat)
  {
    i := dAtA.Length;
    if repeat {
      i := i - 1;
      dAtA[i] := 1;
      i := i - 1;
      dAtA[i] := 0x8;
    }
  }

  method PutAddress(dAtA: array<byte>, address: Bytes) returns (i: nat)
    requires |StringField(0xa, address)| <= dAtA.Length < TWO_64
    modifies dAtA
    ensures i == dAtA.Length - |StringField(0xa, address)| && dAtA[..] == old(dAtA[..i]) + StringField(0xa, address)
  {
    ghost var was := dAtA[..];
    i := PutStringField(dAtA, dAtA.Length, 0xa, address);
    WrittenFirst(dAtA[..], was, i, StringField(0xa, address));
  }

  /** Fill the end of a buffer with a message, given the bytes of its coin; the
      result is how many bytes that took. */
  method MarshalToSizedBuffer<C>(dAtA: array<byte>, m: Message<C>, coin: Bytes) returns (n: nat)
    requires |Encoding(m, coin)| <= dAtA.Length < INT_LIMIT
    modifies dAtA
    ensures n == |Encoding(m, coin)|
    ensures dAtA[..] == old(dAtA[..dAtA.Length - n]) + Encoding(m, coin)
  {
    ghost var was, bytes := dAtA[..], Encoding(m, coin);
    var i: nat;
    if m.ScheduledWork? {
      i := PutWork(dAtA, m.repeat);
    } else if m.ValidatorAddress? {
      i := PutAddress(dAtA, m.address);
    } else if m.Params? {
      i := PutParams(dAtA, coin, m.epochLength, m.maxGasEndBlocker);
    } else {
      i := PutSetMaxCap(dAtA, m.authority, m.contract, coin);
    }
    assert i == dAtA.Length - |bytes| && dAtA[..] == was[..i] + bytes;
    n := dAtA.Length - i;
    assert was[..dAtA.Length - n] == was[..i];
  }

  /** The size is computed first, a buffer of that size made, and filled to the
      last byte. */
  method Marshal<C(!new)>(cc: CoinCodec<C>, m: Message<C>) returns (r: Types.Option<Bytes>)
    requires Lawful(cc) && Size(cc, m) < INT_LIMIT
    ensures r == Encoded(cc, m)
  {
    var coin := CoinBytes(cc, m);
    if coin.None? { return Types.None; }
    SizeIsLength(cc, m);
    var size := Size(cc, m);
    var dAtA := new byte[size];
    ghost var was := dAtA[..];
    var n := MarshalToSizedBuffer(dAtA, m, coin.value);
    assert n == size;
    assert was[..dAtA.Length - n] == [];
    assert dAtA[..n] == dAtA[..] == Encoding(m, coin.value);
    r := Types.Some(dAtA[..n]);
  }

  // ----------------------------------------------------------------- reading

  method ReadChunk(dAtA: Bytes, iNdEx: nat, wireType: nat) returns (r: Parsed<Bytes>)
    requires iNdEx <= |dAtA|
    ensures r == Chunk(dAtA[iNdEx..], iNdEx, wireType)
  {
    if wireType != 2 { return Failed(WrongWireType); }
    var length := ReadVarint(dAtA, iNdEx, TWO_64);
    if length.Failed? { return Failed(length.error); }
    if length.value >= INT_LIMIT { return Failed(InvalidLength); }
    var start := iNdEx + length.used;
    var postIndex := start + length.value;
    if postIndex >= INT_LIMIT { return Failed(InvalidLength); }
    if postIndex > |dAtA| { return Failed(UnexpectedEOF); }
    assert dAtA[iNdEx..][length.used..length.used + length.value] == dAtA[start..postIndex];
    r := Parsed(dAtA[start..postIndex], postIndex - iNdEx);
  }

  method ReadNumber(dAtA: Bytes, iNdEx: nat, wireType: nat, width: nat) returns (r: Parsed<nat>)
    requires iNdEx <= |dAtA| && width > 0
    ensures r == Number(dAtA[iNdEx..], wireType, width)
  {
    if wireType != 0 { return Failed(WrongWireType); }
    r := ReadVarint(dAtA, iNdEx, width);
  }

  method ReadCoin<C>(cc: CoinCodec<C>, c: C, dAtA: Bytes, iNdEx: nat, wireType: nat) returns (r: Parsed<C>)
    requires iNdEx <= |dAtA|
    ensures r == CoinIn(cc, c, dAtA[iNdEx..], iNdEx, wireType)
  {
    var chunk := ReadChunk(dAtA, iNdEx, wireType);
    if chunk.Failed? { return Failed(chunk.error); }
    var coin := cc.unmarshal(c, chunk.value);
    r := if coin.None? then Failed(Nested) else Parsed(coin.value, chunk.used);
  }

  /** The field switch of the four messages, for the fields they know. */
  method ReadKnownField<C>(cc: CoinCodec<C>, m: Message<C>, field: int, dAtA: Bytes, iNdEx: nat, wireType: nat)
    returns (r: Parsed<Message<C>>)
    requires iNdEx <= |dAtA| && Knows(m, field)
    ensures r == KnownField(cc, m, field, dAtA[iNdEx..], iNdEx, wireType)
  {
    match m
    case ScheduledWork(_) =>
      var v := ReadNumber(dAtA, iNdEx, wireType, TWO_64);
      r := if v.Failed? then Failed(v.error) else Parsed(ScheduledWork(v.value != 0), v.used);
    case ValidatorAddress(_) =>
      var b := ReadChunk(dAtA, iNdEx, wireType);
      r := if b.Failed? then Failed(b.error) else Parsed(ValidatorAddress(b.value), b.used);
    case Params(coin, _, _) =>
      if field == 1 {
        var c := ReadCoin(cc, coin, dAtA, iNdEx, wireType);
        r := if c.Failed? then Failed(c.error) else Parsed(m.(totalContractsMaxCap := c.value), c.used);
      } else if field == 2 {
        var v := ReadNumber(dAtA, iNdEx, wireType, TWO_32);
        r := if v.Failed? then Failed(v.error) else Parsed(m.(epochLength := v.value), v.used);
      } else {
        var v := ReadNumber(dAtA, iNdEx, wireType, TWO_32);
        r := if v.Failed? then Failed(v.error) else Parsed(m.(maxGasEndBlocker := v.value), v.used);
      }
    case SetMaxCap(_, _, coin) =>
      if field == 1 {
        var b := ReadChunk(dAtA, iNdEx, wireType);
        r := if b.Failed? then Failed(b.error) else Parsed(m.(authority := b.value), b.used);
      } else if field == 2 {
        var b := ReadChunk(dAtA, iNdEx, wireType);
        r := if b.Failed? then Failed(b.error) else Parsed(m.(contract := b.value), b.used);
      } else {
        var c := ReadCoin(cc, coin, dAtA, iNdEx, wireType);
        r := if c.Failed? then Failed(c.error) else Parsed(m.(maxCap := c.value), c.used);
      }
  }

  method ReadUnknownField<C>(m: Message<C>, dAtA: Bytes, preIndex: nat) returns (r: Parsed<Message<C>>)
    requires preIndex <= |dAtA|
    ensures r == UnknownField(m, dAtA[preIndex..], preIndex)
  {
    var skippy := SkipField(dAtA[preIndex..]);
    if skippy.Fails? { return Failed(skippy.error); }
    if preIndex + skippy.end >= INT_LIMIT { return Failed(InvalidLength); }
    if preIndex + skippy.end > |dAtA| { return Failed(UnexpectedEOF); }
    r := Parsed(m, skippy.end);
  }

  /** The part of a turn of the loop behind the tag. */
  method ReadTagged<C>(cc: CoinCodec<C>, m: Message<C>, wire: nat, n: nat, dAtA: Bytes, preIndex: nat)
    returns (r: Parsed<Message<C>>)
    requires 1 <= n && preIndex + n <= |dAtA|
    ensures r == Tagged(cc, m, wire, n, dAtA[preIndex..], preIndex)
  {
    var fieldNum, wireType := FieldNum(wire), wire % 8;
    if wireType == 4 { return Failed(EndGroupOutside); }
    if fieldNum <= 0 { return Failed(IllegalTag); }
    if Knows(m, fieldNum) {
      assert dAtA[preIndex + n..] == dAtA[preIndex..][n..];
      r := ReadKnownField(cc, m, fieldNum, dAtA, preIndex + n, wireType);
      r := Behind(n, r);
    } else {
      r := ReadUnknownField(m, dAtA, preIndex);
    }
  }

  /** One turn of the loop. */
  method ReadField<C>(cc: CoinCodec<C>, m: Message<C>, dAtA: Bytes, preIndex: nat) returns (r: Parsed<Message<C>>)
    requires preIndex <= |dAtA|
    ensures r == Step(cc, m, dAtA[preIndex..], preIndex)
  {
    var wire := ReadVarint(dAtA, preIndex, TWO_64);
    if wire.Failed? { return Failed(wire.error); }
    r := ReadTagged(cc, m, wire.value, wire.used, dAtA, preIndex);
  }

  /** A message that is filled in place. */
  class Holder<C(!new)> {
    var m: Message<C>

    constructor (m: Message<C>)
      ensures this.m == m
    {
      this.m := m;
    }

    /** Decode some bytes on top of the message. */
    method Unmarshal(cc: CoinCodec<C>, dAtA: Bytes) returns (err: Types.Option<WireError>)
      modifies this
      ensures var r := Unmarshalled(cc, old(m), dAtA);
              if r.Failed? then err == Types.Some(r.error) else err == Types.None && m == r.value
    {
      ghost var whole, step := Unmarshalled(cc, m, dAtA), StepOf(cc);
      var iNdEx := 0;
      assert dAtA[0..] == dAtA;
      while iNdEx < |dAtA|
        invariant 0 <= iNdEx <= |dAtA|
        invariant whole == Behind(iNdEx, Fold(step, m, dAtA[iNdEx..], iNdEx))
      {
        ghost var s := dAtA[iNdEx..];
        var field := ReadField(cc, m, dAtA, iNdEx);
        if field.Failed? { return Types.Some(field.error); }
        var next := iNdEx + field.used;
        ghost var rest := Fold(step, field.value, dAtA[next..], next);
        assert s[field.used..] == dAtA[next..];
        FoldStep(step, m, s, iNdEx, field.value, field.used, next);
        BehindTwice(iNdEx, field.used, rest);
        m := field.value;
        iNdEx := next;
      }
      err := Types.None;
    }
  }
}
