/** Messages survive the way over the wire, with or without unknown fields. */
module RoundTrips {
  import opened Bytes
  import opened Varints
  import opened Skip
  import opened Decoding
  import opened Messages
  import Types

  /** A message of the same kind with nothing in it. */
  function Zero<C>(cc: CoinCodec<C>, m: Message<C>): Message<C> {
    match m
    case ScheduledWork(_) => ScheduledWork(false)
    case ValidatorAddress(_) => ValidatorAddress([])
    case Params(_, _, _) => Params(cc.zero, 0, 0)
    case SetMaxCap(_, _, _) => SetMaxCap([], [], cc.zero)
  }

  // ------------------------------------------------------------- known fields

  lemma TagReads(tag: byte, payload: Bytes)
    requires tag < 128
    ensures VarintIn([tag] + payload, TWO_64) == Parsed(tag, 1) && ([tag] + payload)[1..] == payload
  {
    assert ([tag] + payload)[0] == tag;
  }

  /** A tag and the payload of the field it announces. */
  lemma KnownReads<C>(cc: CoinCodec<C>, m: Message<C>, tag: byte, payload: Bytes, m': Message<C>)
    requires tag < 128 && tag % 8 != 4 && Knows(m, tag / 8)
    requires KnownField(cc, m, tag / 8, payload, 1, tag % 8) == Parsed(m', |payload|)
    ensures Reads(StepOf(cc), m, [tag] + payload, m')
  {
    TagReads(tag, payload);
    assert FieldNum(tag) == tag / 8;
    OneField(StepOf(cc), m, [tag] + payload, m');
  }

  lemma Behindmost(a: Bytes, b: Bytes)
    ensures (a + b)[|a|..|a| + |b|] == b
  {
  }

  lemma ChunkReads(b: Bytes, at: nat)
    requires at + |Varint(|b|) + b| < INT_LIMIT
    ensures Chunk(Varint(|b|) + b, at, 2) == Parsed(b, |Varint(|b|) + b|)
  {
    Behindmost(Varint(|b|), b);
    VarintInReads(|b|, b, TWO_64);
  }

  lemma NumberReads(v: nat, width: nat)
    requires v < width <= TWO_64
    ensures Number(Varint(v), 0, width) == Parsed(v, |Varint(v)|)
  {
    VarintInReads(v, [], width);
    assert Varint(v) + [] == Varint(v);
  }

  /** A string or a nested message, when the field is a new value for it. */
  lemma LenReads<C>(cc: CoinCodec<C>, m: Message<C>, tag: byte, b: Bytes, m': Message<C>)
    requires tag < 128 && tag % 8 == 2 && Knows(m, tag / 8) && |LenField(tag, b)| < INT_LIMIT
    requires Chunk(Varint(|b|) + b, 1, 2) == Parsed(b, |Varint(|b|) + b|) ==>
               KnownField(cc, m, tag / 8, Varint(|b|) + b, 1, 2) == Parsed(m', |Varint(|b|) + b|)
    ensures Reads(StepOf(cc), m, LenField(tag, b), m')
  {
    ChunkReads(b, 1);
    KnownReads(cc, m, tag, Varint(|b|) + b, m');
  }

  lemma WorkReads<C>(cc: CoinCodec<C>, repeat: bool)
    ensures Reads(StepOf(cc), ScheduledWork(false), Encoding(Message<C>.ScheduledWork(repeat), []),
                  ScheduledWork(repeat))
  {
    if repeat {
      NumberReads(1, TWO_64);
      assert Varint(1) == [1] && [0x8, 1] == [0x8] + Varint(1);
      KnownReads(cc, ScheduledWork(false), 0x8, Varint(1), ScheduledWork(true));
    }
  }

  lemma AddressReads<C>(cc: CoinCodec<C>, address: Bytes)
    requires |StringField(0xa, address)| < INT_LIMIT
    ensures Reads(StepOf(cc), ValidatorAddress([]), StringField(0xa, address), ValidatorAddress(address))
  {
    if address != [] {
      LenReads(cc, ValidatorAddress([]), 0xa, address, ValidatorAddress(address));
    }
  }

  lemma ParamsCoinReads<C(!new)>(cc: CoinCodec<C>, c: C)
    requires Lawful(cc) && cc.marshal(c).Some? && |LenField(0xa, cc.marshal(c).value)| < INT_LIMIT
    ensures Reads(StepOf(cc), Params(cc.zero, 0, 0), LenField(0xa, cc.marshal(c).value), Params(c, 0, 0))
  {
    LenReads(cc, Params(cc.zero, 0, 0), 0xa, cc.marshal(c).value, Params(c, 0, 0));
  }

  lemma EpochLengthReads<C>(cc: CoinCodec<C>, c: C, epochLength: Types.u32)
    ensures Reads(StepOf(cc), Params(c, 0, 0), NumberField(0x10, epochLength), Params(c, epochLength, 0))
  {
    if epochLength != 0 {
      NumberReads(epochLength, TWO_32);
      KnownReads(cc, Params(c, 0, 0), 0x10, Varint(epochLength), Params(c, epochLength, 0));
    }
  }

  lemma MaxGasReads<C>(cc: CoinCodec<C>, c: C, epochLength: Types.u32, maxGas: Types.u32)
    ensures Reads(StepOf(cc), Params(c, epochLength, 0), NumberField(0x18, maxGas), Params(c, epochLength, maxGas))
  {
    if maxGas != 0 {
      NumberReads(maxGas, TWO_32);
      KnownReads(cc, Params(c, epochLength, 0), 0x18, Varint(maxGas), Params(c, epochLength, maxGas));
    }
  }

  lemma AuthorityReads<C>(cc: CoinCodec<C>, authority: Bytes)
    requires |StringField(0xa, authority)| < INT_LIMIT
    ensures Reads(StepOf(cc), SetMaxCap([], [], cc.zero), StringField(0xa, authority),
                  SetMaxCap(authority, [], cc.zero))
  {
    if authority != [] {
      LenReads(cc, SetMaxCap([], [], cc.zero), 0xa, authority, SetMaxCap(authority, [], cc.zero));
    }
  }

  lemma ContractReads<C>(cc: CoinCodec<C>, authority: Bytes, contract: Bytes)
    requires |StringField(0x12, contract)| < INT_LIMIT
    ensures Reads(StepOf(cc), SetMaxCap(authority, [], cc.zero), StringField(0x12, contract),
                  SetMaxCap(authority, contract, cc.zero))
  {
    if contract != [] {
      LenReads(cc, SetMaxCap(authority, [], cc.zero), 0x12, contract, SetMaxCap(authority, contract, cc.zero));
    }
  }

  lemma MaxCapReads<C(!new)>(cc: CoinCodec<C>, authority: Bytes, contract: Bytes, c: C)
    requires Lawful(cc) && cc.marshal(c).Some? && |LenField(0x1a, cc.marshal(c).value)| < INT_LIMIT
    ensures Reads(StepOf(cc), SetMaxCap(authority, contract, cc.zero), LenField(0x1a, cc.marshal(c).value),
                  SetMaxCap(authority, contract, c))
  {
    LenReads(cc, SetMaxCap(authority, contract, cc.zero), 0x1a, cc.marshal(c).value, SetMaxCap(authority, contract, c));
  }

  /** Decoding the encoding of a message gives the message. */
  lemma RoundTrip<C(!new)>(cc: CoinCodec<C>, m: Message<C>)
    requires Lawful(cc) && Encoded(cc, m).Some? && |Encoded(cc, m).value| < INT_LIMIT
    ensures Unmarshalled(cc, Zero(cc, m), Encoded(cc, m).value) == Parsed(m, |Encoded(cc, m).value|)
  {
    StepIsLocal(cc);
    var step, z, coin := StepOf(cc), Zero(cc, m), CoinBytes(cc, m).value;
    match m
    case ScheduledWork(repeat) =>
      WorkReads(cc, repeat);
    case ValidatorAddress(address) =>
      AddressReads(cc, address);
    case Params(c, epochLength, maxGas) =>
      ParamsCoinReads(cc, c);
      EpochLengthReads(cc, c, epochLength);
      MaxGasReads(cc, c, epochLength, maxGas);
      var numbers := NumberField(0x10, epochLength) + NumberField(0x18, maxGas);
      Compose(step, Params(c, 0, 0), NumberField(0x10, epochLength), Params(c, epochLength, 0),
              NumberField(0x18, maxGas), m);
      Compose(step, z, LenField(0xa, coin), Params(c, 0, 0), numbers, m);
    case SetMaxCap(authority, contract, c) =>
      AuthorityReads(cc, authority);
      ContractReads(cc, authority, contract);
      MaxCapReads(cc, authority, contract, c);
      var rest := StringField(0x12, contract) + LenField(0x1a, coin);
      Compose(step, SetMaxCap(authority, [], cc.zero), StringField(0x12, contract),
              SetMaxCap(authority, contract, cc.zero), LenField(0x1a, coin), m);
      Compose(step, z, StringField(0xa, authority), SetMaxCap(authority, [], cc.zero), rest, m);
  }

  // ------------------------------------------------ one field at a time

  lemma NumberReadsCutOff(v: u64, width: nat)
    requires width > 0
    ensures Number(Varint(v), 0, width) == Parsed(v % width, |Varint(v)|)
  {
    U64Length(v);
    VarintRoundTrip(v, [], 0);
    assert Varint(v) + [] == Varint(v);
    WrapIsMod(v, width);
  }

  lemma NumberFieldSets<C>(cc: CoinCodec<C>, m: Message<C>, tag: byte, v: u64, width: nat, m': Message<C>)
    requires tag < 128 && tag % 8 == 0 && Knows(m, tag / 8) && width > 0
    requires Number(Varint(v), 0, width) == Parsed(v % width, |Varint(v)|) ==>
               KnownField(cc, m, tag / 8, Varint(v), 1, 0) == Parsed(m', |Varint(v)|)
    ensures Reads(StepOf(cc), m, [tag] + Varint(v), m')
  {
    NumberReadsCutOff(v, width);
    KnownReads(cc, m, tag, Varint(v), m');
  }

  /** Every field by its tag, number times eight plus wire type, on top of any
      message: it replaces the value of that field and no other; numbers are cut
      off to their width, a nested coin is decoded on top of the one there. */
  lemma NumbersAreSet<C>(cc: CoinCodec<C>, m: Message<C>, v: u64)
    ensures m.ScheduledWork? ==> Reads(StepOf(cc), m, [8] + Varint(v), ScheduledWork(v != 0))
    ensures m.Params? ==> Reads(StepOf(cc), m, [16] + Varint(v), m.(epochLength := v % 0x1_0000_0000))
    ensures m.Params? ==> Reads(StepOf(cc), m, [24] + Varint(v), m.(maxGasEndBlocker := v % 0x1_0000_0000))
  {
    if m.ScheduledWork? {
      NumberFieldSets(cc, m, 8, v, TWO_64, ScheduledWork(v != 0));
    } else if m.Params? {
      NumberFieldSets(cc, m, 16, v, TWO_32, m.(epochLength := v % 0x1_0000_0000));
      NumberFieldSets(cc, m, 24, v, TWO_32, m.(maxGasEndBlocker := v % 0x1_0000_0000));
    }
  }

  lemma StringsAreSet<C>(cc: CoinCodec<C>, m: Message<C>, b: Bytes)
    requires |[0] + (Varint(|b|) + b)| < INT_LIMIT
    ensures m.ValidatorAddress? ==> Reads(StepOf(cc), m, [10] + (Varint(|b|) + b), ValidatorAddress(b))
    ensures m.SetMaxCap? ==> Reads(StepOf(cc), m, [10] + (Varint(|b|) + b), m.(authority := b))
    ensures m.SetMaxCap? ==> Reads(StepOf(cc), m, [18] + (Varint(|b|) + b), m.(contract := b))
  {
    if m.ValidatorAddress? {
      LenReads(cc, m, 10, b, ValidatorAddress(b));
    } else if m.SetMaxCap? {
      LenReads(cc, m, 10, b, m.(authority := b));
      LenReads(cc, m, 18, b, m.(contract := b));
    }
  }

  lemma CoinsAreSet<C>(cc: CoinCodec<C>, m: Message<C>, b: Bytes, c: C)
    requires |[0] + (Varint(|b|) + b)| < INT_LIMIT
    ensures m.Params? && cc.unmarshal(m.totalContractsMaxCap, b) == Types.Some(c) ==>
              Reads(StepOf(cc), m, [10] + (Varint(|b|) + b), m.(totalContractsMaxCap := c))
    ensures m.SetMaxCap? && cc.unmarshal(m.maxCap, b) == Types.Some(c) ==>
              Reads(StepOf(cc), m, [26] + (Varint(|b|) + b), m.(maxCap := c))
  {
    if m.Params? && cc.unmarshal(m.totalContractsMaxCap, b) == Types.Some(c) {
      LenReads(cc, m, 10, b, m.(totalContractsMaxCap := c));
    } else if m.SetMaxCap? && cc.unmarshal(m.maxCap, b) == Types.Some(c) {
      LenReads(cc, m, 26, b, m.(maxCap := c));
    }
  }

  // ----------------------------------------------------------- unknown fields

  /** The front of `b` is a tag with a legal number, a positive signed 32-bit
      one, beyond the last that is known. */
  ghost predicate UnknownTag(last: nat, b: Bytes) {
    exists n: nat :: n <= |b| && VarintForm(b[..n]) && last < TagNumber(VarintWorth(b[..n])) < 0x8000_0000
  }

  /** The upper bits of a tag, cut off to 64 and then to 32 bits. */
  function TagNumber(worth: nat): nat {
    worth % 0x1_0000_0000_0000_0000 / 8 % 0x1_0000_0000
  }

  lemma UnknownTagReads(last: nat, b: Bytes)
    requires UnknownTag(last, b)
    ensures VarintIn(b, TWO_64).Parsed? && FieldNum(VarintIn(b, TWO_64).value) > last
  {
    var n: nat :| n <= |b| && VarintForm(b[..n]) && last < TagNumber(VarintWorth(b[..n])) < 0x8000_0000;
    VarintFront(b, n);
  }

  /** Every field of the tree is unknown; what is inside groups does not matter. */
  ghost predicate UnknownFields(last: nat, t: Fields) {
    match t
    case End => true
    case Plain(b, rest) => UnknownTag(last, b) && UnknownFields(last, rest)
    case Nest(o, _, _, rest) => UnknownTag(last, o) && UnknownFields(last, rest)
  }

  /** A field begins with the tag that makes it unknown. */
  lemma UnknownFirst(last: nat, t: Fields) returns (b: Bytes, tail: Bytes)
    requires One(t) && WellFormed(t) && UnknownFields(last, t)
    ensures Flat(t) == b + tail && UnknownTag(last, b)
    ensures VarintIn(b, TWO_64).Parsed? && VarintIn(b, TWO_64).value % 8 != 4
  {
    assert FlatThen(t.rest, []) == [];
    if t.Plain? {
      b, tail := t.bytes, [];
      ScalarLayout(b);
    } else {
      b, tail := t.open, FlatThen(t.body, t.close);
      TagLayout(b);
      assert t.close + [] == t.close;
    }
  }

  lemma UnknownStep<C>(cc: CoinCodec<C>, m: Message<C>, b: Bytes, tail: Bytes)
    requires UnknownTag(LastField(m), b) && VarintIn(b, TWO_64).Parsed? && VarintIn(b, TWO_64).value % 8 != 4
    ensures Step(cc, m, b + tail, 0) == UnknownField(m, b + tail, 0)
  {
    UnknownTagReads(LastField(m), b);
    VarintInExtend(b, tail, TWO_64);
  }

  lemma UnknownReads<C>(cc: CoinCodec<C>, m: Message<C>, t: Fields)
    requires One(t) && WellFormed(t) && UnknownFields(LastField(m), t) && |Flat(t)| < INT_LIMIT
    ensures Reads(StepOf(cc), m, Flat(t), m)
  {
    var s := Flat(t);
    FieldReads(EntriesOf(s), s, t, []);
    var b, tail := UnknownFirst(LastField(m), t);
    UnknownStep(cc, m, b, tail);
    assert Step(cc, m, s, 0) == Parsed(m, |s|);
    OneField(StepOf(cc), m, s, m);
  }

  function First(t: Fields): Fields
    requires !t.End?
  {
    t.(rest := End)
  }

  lemma FlatOfFirst(t: Fields)
    requires !t.End?
    ensures Flat(t) == Flat(First(t)) + Flat(t.rest)
  {
    if t.Nest? {
      FlatThenAppend(t.body, t.close, Flat(t.rest));
      assert t.close + [] == t.close;
      assert t.open + (FlatThen(t.body, t.close) + Flat(t.rest)) == (t.open + FlatThen(t.body, t.close)) + Flat(t.rest);
    } else {
      assert Flat(First(t)) == t.bytes + FlatThen(End, []);
      assert t.bytes + [] == t.bytes;
    }
  }

  /** Any number of unknown fields leave a message as it is. */
  lemma {:induction false} UnknownFieldsRead<C(!new)>(cc: CoinCodec<C>, m: Message<C>, t: Fields)
    requires WellFormed(t) && UnknownFields(LastField(m), t) && |Flat(t)| < INT_LIMIT
    ensures Reads(StepOf(cc), m, Flat(t), m)
    decreases t
  {
    if !t.End? {
      StepIsLocal(cc);
      FlatOfFirst(t);
      UnknownReads(cc, m, First(t));
      UnknownFieldsRead(cc, m, t.rest);
      Compose(StepOf(cc), m, Flat(First(t)), m, Flat(t.rest), m);
    }
  }

  /** Unknown fields put between the fields of any message, or taken away, make no
      difference to what is decoded. */
  lemma UnknownFieldsMakeNoDifference<C(!new)>(
    cc: CoinCodec<C>, m: Message<C>, a: Bytes, m': Message<C>, t: Fields, b: Bytes, m'': Message<C>)
    requires Reads(StepOf(cc), m, a, m')
    requires WellFormed(t) && UnknownFields(LastField(m'), t) && |a + Flat(t) + b| < INT_LIMIT
    ensures Reads(StepOf(cc), m, a + Flat(t) + b, m'') <==> Reads(StepOf(cc), m, a + b, m'')
  {
    StepIsLocal(cc);
    UnknownFieldsRead(cc, m', t);
    Inserting(StepOf(cc), m, a, m', Flat(t), b, m'');
  }

  /** A field followed by unknown ones. */
  lemma FieldThenUnknown<C(!new)>(cc: CoinCodec<C>, m: Message<C>, field: Bytes, m': Message<C>, t: Fields)
    requires Reads(StepOf(cc), m, field, m')
    requires WellFormed(t) && UnknownFields(LastField(m'), t) && |field + Flat(t)| < INT_LIMIT
    ensures Reads(StepOf(cc), m, field + Flat(t), m')
  {
    StepIsLocal(cc);
    UnknownFieldsRead(cc, m', t);
    Compose(StepOf(cc), m, field, m', Flat(t), m');
  }

  /** Unknown fields before, between and behind the fields of encoded parameters
      are ignored. */
  lemma ParamsIgnoreUnknownFields<C(!new)>(
    cc: CoinCodec<C>, c: C, epochLength: Types.u32, maxGas: Types.u32, t0: Fields, t1: Fields, t2: Fields, t3: Fields)
    requires Lawful(cc) && cc.marshal(c).Some?
    requires WellFormed(t0) && WellFormed(t1) && WellFormed(t2) && WellFormed(t3)
    requires UnknownFields(3, t0) && UnknownFields(3, t1) && UnknownFields(3, t2) && UnknownFields(3, t3)
    requires |Padded(cc.marshal(c).value, epochLength, maxGas, t0, t1, t2, t3)| < INT_LIMIT
    ensures var s := Padded(cc.marshal(c).value, epochLength, maxGas, t0, t1, t2, t3);
            Unmarshalled(cc, Params(cc.zero, 0, 0), s) == Parsed(Params(c, epochLength, maxGas), |s|)
  {
    StepIsLocal(cc);
    var step := StepOf(cc);
    var m0, m1, m2, m3 :=
      Params(cc.zero, 0, 0), Params(c, 0, 0), Params(c, epochLength, 0), Params(c, epochLength, maxGas);
    var f1, f2, f3 :=
      LenField(0xa, cc.marshal(c).value), NumberField(0x10, epochLength), NumberField(0x18, maxGas);
    UnknownFieldsRead(cc, m0, t0);
    ParamsCoinReads(cc, c);
    FieldThenUnknown(cc, m0, f1, m1, t1);
    EpochLengthReads(cc, c, epochLength);
    FieldThenUnknown(cc, m1, f2, m2, t2);
    MaxGasReads(cc, c, epochLength, maxGas);
    FieldThenUnknown(cc, m2, f3, m3, t3);
    Compose(step, m1, f2 + Flat(t2), m2, f3 + Flat(t3), m3);
    Compose(step, m0, f1 + Flat(t1), m1, (f2 + Flat(t2)) + (f3 + Flat(t3)), m3);
    Compose(step, m0, Flat(t0), m0, (f1 + Flat(t1)) + ((f2 + Flat(t2)) + (f3 + Flat(t3))), m3);
  }

  /** The bytes of parameters with other fields around each of theirs. */
  function Padded(
    coin: Bytes, epochLength: Types.u32, maxGas: Types.u32, t0: Fields, t1: Fields, t2: Fields, t3: Fields): Bytes
  {
    Flat(t0)
    + ((LenField(0xa, coin) + Flat(t1))
       + ((NumberField(0x10, epochLength) + Flat(t2))
          + (NumberField(0x18, maxGas) + Flat(t3))))
  }
}
