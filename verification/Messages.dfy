/** The protobuf messages of the module on the wire. */
module Messages {
  import opened Bytes
  import opened Varints
  import opened Skip
  import opened Decoding
  import Types

  /** How the nested coin type puts itself on the wire. */
  datatype CoinCodec<!C> = CoinCodec(
    zero: C,
    size: C -> nat,
    marshal: C -> Types.Option<Bytes>,
    unmarshal: (C, Bytes) -> Types.Option<C>)

  datatype Message<+C> =
    | ScheduledWork(repeat: bool)
    | ValidatorAddress(address: Bytes)
    | Params(totalContractsMaxCap: C, epochLength: Types.u32, maxGasEndBlocker: Types.u32)
    | SetMaxCap(authority: Bytes, contract: Bytes, maxCap: C)

  // --------------------------------------------------------------- encoding

  function LenField(tag: byte, b: Bytes): Bytes {
    [tag] + (Varint(|b|) + b)
  }

  function StringField(tag: byte, b: Bytes): Bytes {
    if b == [] then [] else LenField(tag, b)
  }

  function NumberField(tag: byte, v: nat): Bytes {
    if v == 0 then [] else [tag] + Varint(v)
  }

  function WorkBytes(repeat: bool): Bytes {
    if repeat then [0x8, 1] else []
  }

  function ParamsBytes(coin: Bytes, epochLength: Types.u32, maxGas: Types.u32): Bytes {
    LenField(0xa, coin) + (NumberField(0x10, epochLength) + NumberField(0x18, maxGas))
  }

  function SetMaxCapBytes(authority: Bytes, contract: Bytes, coin: Bytes): Bytes {
    StringField(0xa, authority) + (StringField(0x12, contract) + LenField(0x1a, coin))
  }

  /** The bytes of a message, given those of its coin. */
  function Encoding<C>(m: Message<C>, coin: Bytes): Bytes {
    match m
    case ScheduledWork(repeat) => WorkBytes(repeat)
    case ValidatorAddress(address) => StringField(0xa, address)
    case Params(_, epochLength, maxGas) => ParamsBytes(coin, epochLength, maxGas)
    case SetMaxCap(authority, contract, _) => SetMaxCapBytes(authority, contract, coin)
  }

  /** The bytes of the coin in a message; a message without one needs none. */
  function CoinBytes<C>(cc: CoinCodec<C>, m: Message<C>): Types.Option<Bytes> {
    match m
    case ScheduledWork(_) => Types.Some([])
    case ValidatorAddress(_) => Types.Some([])
    case Params(coin, _, _) => cc.marshal(coin)
    case SetMaxCap(_, _, coin) => cc.marshal(coin)
  }

  function Encoded<C>(cc: CoinCodec<C>, m: Message<C>): Types.Option<Bytes> {
    var coin := CoinBytes(cc, m);
    if coin.None? then Types.None else Types.Some(Encoding(m, coin.value))
  }

  function LenSize(l: nat): nat {
    1 + l + Sov(l)
  }

  function Size<C>(cc: CoinCodec<C>, m: Message<C>): nat {
    match m
    case ScheduledWork(repeat) => if repeat then 2 else 0
    case ValidatorAddress(address) => if |address| > 0 then LenSize(|address|) else 0
    case Params(coin, epochLength, maxGas) =>
      LenSize(cc.size(coin))
      + (if epochLength != 0 then 1 + Sov(epochLength) else 0)
      + (if maxGas != 0 then 1 + Sov(maxGas) else 0)
    case SetMaxCap(authority, contract, coin) =>
      (if |authority| > 0 then LenSize(|authority|) else 0)
      + (if |contract| > 0 then LenSize(|contract|) else 0)
      + LenSize(cc.size(coin))
  }

  /** What the coin type promises: its size is the length of its encoding, which
      decodes to it. */
  ghost predicate Lawful<C(!new)>(cc: CoinCodec<C>) {
    && (forall c :: cc.marshal(c).Some? ==> |cc.marshal(c).value| == cc.size(c))
    && (forall c :: cc.marshal(c).Some? ==> cc.unmarshal(cc.zero, cc.marshal(c).value) == Types.Some(c))
  }

  /** A field with its number and wire type. */
  function Keyed(number: nat, wireType: nat, payload: Bytes): Bytes {
    Varint(8 * number + wireType) + payload
  }

  /** Text with its length in front; empty text is left out. */
  function KeyedText(number: nat, b: Bytes): Bytes {
    if b == [] then [] else Keyed(number, 2, Varint(|b|) + b)
  }

  lemma FieldsAreKeyed(number: nat, b: Bytes, v: nat)
    requires number < 16
    ensures LenField(8 * number + 2, b) == Keyed(number, 2, Varint(|b|) + b)
    ensures StringField(8 * number + 2, b) == KeyedText(number, b)
    ensures NumberField(8 * number, v) == if v == 0 then [] else Keyed(number, 0, Varint(v))
  {
    TagByte(8 * number);
    TagByte(8 * number + 2);
  }

  lemma TagByte(tag: nat)
    requires tag < 128
    ensures Varint(tag) == [tag]
  {
  }

  // The encodings in terms of field numbers: present fields in ascending order,
  // numbers as varints, the rest with a length in front; what is zero or empty is
  // left out, a nested coin never is.

  lemma WorkByNumber<C>(repeat: bool, coin: Bytes)
    ensures Encoding(Message<C>.ScheduledWork(repeat), coin) == if repeat then Keyed(1, 0, Varint(1)) else []
  {
    TagByte(8);
    TagByte(1);
  }

  lemma AddressByNumber<C>(address: Bytes, coin: Bytes)
    ensures Encoding(Message<C>.ValidatorAddress(address), coin) == KeyedText(1, address)
  {
    FieldsAreKeyed(1, address, 0);
  }

  lemma ParamsByNumber<C>(c: C, epochLength: Types.u32, maxGas: Types.u32, coin: Bytes)
    ensures Encoding(Params(c, epochLength, maxGas), coin) ==
            Keyed(1, 2, Varint(|coin|) + coin)
            + ((if epochLength == 0 then [] else Keyed(2, 0, Varint(epochLength)))
               + (if maxGas == 0 then [] else Keyed(3, 0, Varint(maxGas))))
  {
    FieldsAreKeyed(1, coin, 0);
    FieldsAreKeyed(2, [], epochLength);
    FieldsAreKeyed(3, [], maxGas);
  }

  lemma SetMaxCapByNumber<C>(authority: Bytes, contract: Bytes, c: C, coin: Bytes)
    ensures Encoding(SetMaxCap(authority, contract, c), coin) ==
            KeyedText(1, authority) + (KeyedText(2, contract) + Keyed(3, 2, Varint(|coin|) + coin))
  {
    FieldsAreKeyed(1, authority, 0);
    FieldsAreKeyed(2, contract, 0);
    FieldsAreKeyed(3, coin, 0);
  }

  lemma FieldSizes(tag: byte, b: Bytes, v: nat)
    ensures |LenField(tag, b)| == LenSize(|b|)
    ensures |StringField(tag, b)| == if |b| > 0 then LenSize(|b|) else 0
    ensures |NumberField(tag, v)| == if v != 0 then 1 + Sov(v) else 0
  {
    SovIsLength(|b|);
    SovIsLength(v);
  }

  /** `Size` is the number of bytes of the encoding. */
  lemma SizeIsLength<C(!new)>(cc: CoinCodec<C>, m: Message<C>)
    requires Lawful(cc) && Encoded(cc, m).Some?
    ensures |Encoded(cc, m).value| == Size(cc, m)
  {
    var coin := CoinBytes(cc, m).value;
    match m
    case ScheduledWork(_) =>
    case ValidatorAddress(address) => FieldSizes(0xa, address, 0);
    case Params(_, epochLength, maxGas) =>
      FieldSizes(0xa, coin, 0);
      FieldSizes(0x10, [], epochLength);
      FieldSizes(0x18, [], maxGas);
    case SetMaxCap(authority, contract, _) =>
      FieldSizes(0xa, authority, 0);
      FieldSizes(0x12, contract, 0);
      FieldSizes(0x1a, coin, 0);
  }

  // --------------------------------------------------------------- decoding

  /** The field number of a tag: the upper bits, cut off to a signed 32-bit number. */
  function FieldNum(wire: nat): int {
    var n := (wire / 8) % 0x1_0000_0000;
    if n < 0x8000_0000 then n else n - 0x1_0000_0000
  }

  /** It is the signed 32-bit number that agrees with the upper bits modulo 2^32. */
  lemma FieldNumMeans(wire: nat)
    ensures -0x8000_0000 <= FieldNum(wire) < 0x8000_0000
    ensures (wire / 8 - FieldNum(wire)) % 0x1_0000_0000 == 0
  {
  }

  /** Known fields are numbered from one. */
  function LastField<C>(m: Message<C>): nat {
    if m.ScheduledWork? || m.ValidatorAddress? then 1 else 3
  }

  predicate Knows<C>(m: Message<C>, field: int) {
    1 <= field <= LastField(m)
  }

  lemma KnownNumbers<C>(m: Message<C>, field: int)
    ensures Knows(m, field) <==> field == 1 || (field in {2, 3} && (m.Params? || m.SetMaxCap?))
  {
  }

  /** A length-delimited payload. `at` is its index in the whole message. */
  function Chunk(s: Bytes, at: nat, wireType: nat): (r: Parsed<Bytes>)
    ensures r.Parsed? ==> r.used <= |s|
  {
    if wireType != 2 then Failed(WrongWireType)
    else
      match VarintIn(s, TWO_64)
      case Failed(e) => Failed(e)
      case Parsed(length, n) =>
        if length >= INT_LIMIT || at + n + length >= INT_LIMIT then Failed(InvalidLength)
        else if n + length > |s| then Failed(UnexpectedEOF)
        else Parsed(s[n..n + length], n + length)
  }

  /** Behind a length of `n` bytes: the payload is as many bytes as the length
      says, unless that or its end is more than an `int` can hold, or there are
      not so many bytes. */
  lemma ChunkMeans(s: Bytes, at: nat, n: nat)
    requires n <= |s| && VarintForm(s[..n])
    ensures var length := VarintWorth(s[..n]) % 0x1_0000_0000_0000_0000;
            Chunk(s, at, 2) ==
            if at + n + length >= 0x8000_0000_0000_0000 then Failed(InvalidLength)
            else if n + length > |s| then Failed(UnexpectedEOF)
            else Parsed(s[n..n + length], n + length)
  {
    VarintFront(s, n);
  }

  function Number(s: Bytes, wireType: nat, width: nat): (r: Parsed<nat>)
    requires width > 0
    ensures r.Parsed? ==> r.used <= |s|
    ensures r.Parsed? ==> r.value < width
  {
    if wireType != 0 then Failed(WrongWireType) else VarintIn(s, width)
  }

  /** A nested coin, decoded on top of what is there. */
  function CoinIn<C>(cc: CoinCodec<C>, c: C, s: Bytes, at: nat, wireType: nat): (r: Parsed<C>)
    ensures r.Parsed? ==> r.used <= |s|
  {
    match Chunk(s, at, wireType)
    case Failed(e) => Failed(e)
    case Parsed(b, n) =>
      var coin := cc.unmarshal(c, b);
      if coin.None? then Failed(Nested) else Parsed(coin.value, n)
  }

  const TWO_32: nat := 0x1_0000_0000

  /** The message with one known field read from behind its tag. */
  function KnownField<C>(
    cc: CoinCodec<C>, m: Message<C>, field: int, s: Bytes, at: nat, wireType: nat): (r: Parsed<Message<C>>)
    ensures r.Parsed? ==> r.used <= |s|
  {
    match m
    case ScheduledWork(_) =>
      (match Number(s, wireType, TWO_64)
       case Failed(e) => Failed(e)
       case Parsed(v, n) => Parsed(ScheduledWork(v != 0), n))
    case ValidatorAddress(_) =>
      (match Chunk(s, at, wireType)
       case Failed(e) => Failed(e)
       case Parsed(b, n) => Parsed(ValidatorAddress(b), n))
    case Params(coin, _, _) =>
      if field == 1 then
        match CoinIn(cc, coin, s, at, wireType)
        case Failed(e) => Failed(e)
        case Parsed(c, n) => Parsed(m.(totalContractsMaxCap := c), n)
      else
        (match Number(s, wireType, TWO_32)
         case Failed(e) => Failed(e)
         case Parsed(v, n) => Parsed(if field == 2 then m.(epochLength := v) else m.(maxGasEndBlocker := v), n))
    case SetMaxCap(_, _, coin) =>
      if field == 3 then
        match CoinIn(cc, coin, s, at, wireType)
        case Failed(e) => Failed(e)
        case Parsed(c, n) => Parsed(m.(maxCap := c), n)
      else
        (match Chunk(s, at, wireType)
         case Failed(e) => Failed(e)
         case Parsed(b, n) => Parsed(if field == 1 then m.(authority := b) else m.(contract := b), n))
  }

  /** A known field with another wire type than its own is refused. */
  lemma WireTypesChecked<C>(cc: CoinCodec<C>, m: Message<C>, field: int, s: Bytes, at: nat, wireType: nat)
    requires Knows(m, field)
    requires wireType != if m.ScheduledWork? || (m.Params? && field != 1) then 0 else 2
    ensures KnownField(cc, m, field, s, at, wireType) == Failed(WrongWireType)
  {
  }

  /** An unknown field is stepped over. */
  function UnknownField<C>(m: Message<C>, s: Bytes, at: nat): (r: Parsed<Message<C>>)
    ensures r.Parsed? ==> 1 <= r.used <= |s|
  {
    match SkipResult(s)
    case Fails(e) => Failed(e)
    case Ends(n) =>
      if at + n >= INT_LIMIT then Failed(InvalidLength)
      else if n > |s| then Failed(UnexpectedEOF)
      else Parsed(m, n)
  }

  /** The field behind a tag `wire` of `n` bytes. */
  function Tagged<C>(cc: CoinCodec<C>, m: Message<C>, wire: nat, n: nat, s: Bytes, at: nat): (r: Parsed<Message<C>>)
    requires 1 <= n <= |s|
    ensures r.Parsed? ==> 1 <= r.used <= |s|
  {
    if wire % 8 == 4 then Failed(EndGroupOutside)
    else if FieldNum(wire) <= 0 then Failed(IllegalTag)
    else if Knows(m, FieldNum(wire)) then Behind(n, KnownField(cc, m, FieldNum(wire), s[n..], at + n, wire % 8))
    else UnknownField(m, s, at)
  }

  /** One field of a message; `at` is its index in the whole message. */
  function Step<C>(cc: CoinCodec<C>, m: Message<C>, s: Bytes, at: nat): (r: Parsed<Message<C>>)
    ensures r.Parsed? ==> 1 <= r.used <= |s|
  {
    match VarintIn(s, TWO_64)
    case Failed(e) => Failed(e)
    case Parsed(wire, n) => Tagged(cc, m, wire, n, s, at)
  }

  /** Tags that are refused: an end of a group, and a field number that is not a
      positive signed 32-bit one. */
  lemma TagsRefused<C>(cc: CoinCodec<C>, m: Message<C>, s: Bytes, n: nat, at: nat)
    requires 1 <= n <= |s| && VarintForm(s[..n])
    ensures var wire := VarintWorth(s[..n]) % 0x1_0000_0000_0000_0000;
            var number := wire / 8 % 0x1_0000_0000;
            && (wire % 8 == 4 ==> Step(cc, m, s, at) == Failed(EndGroupOutside))
            && (wire % 8 != 4 && (number == 0 || number >= 0x8000_0000) ==> Step(cc, m, s, at) == Failed(IllegalTag))
  {
    VarintFront(s, n);
  }

  function StepOf<C>(cc: CoinCodec<C>): (Message<C>, Bytes, nat) -> Parsed<Message<C>> {
    (m: Message<C>, s: Bytes, at: nat) => Step(cc, m, s, at)
  }

  /** The message after all fields of some bytes, decoded on top of `m`. */
  function Unmarshalled<C>(cc: CoinCodec<C>, m: Message<C>, s: Bytes): Parsed<Message<C>> {
    Fold(StepOf(cc), m, s, 0)
  }

  // ------------------------------------------- fields do not depend on context

  lemma SliceOfPrefix(s: Bytes, post: Bytes, i: nat, j: nat)
    requires i <= j <= |s|
    ensures (s + post)[i..j] == s[i..j]
  {
  }

  lemma ChunkExtend(s: Bytes, post: Bytes, at: nat, at': nat, wireType: nat)
    requires Chunk(s, at, wireType).Parsed? && at' + |s| < INT_LIMIT
    ensures Chunk(s + post, at', wireType) == Chunk(s, at, wireType)
  {
    VarintInExtend(s, post, TWO_64);
    var n := VarintIn(s, TWO_64).used;
    var end := n + VarintIn(s, TWO_64).value;
    SliceOfPrefix(s, post, n, end);
  }

  lemma KnownFieldExtend<C>(
    cc: CoinCodec<C>, m: Message<C>, field: int, s: Bytes, post: Bytes, at: nat, at': nat, wireType: nat)
    requires KnownField(cc, m, field, s, at, wireType).Parsed? && at' + |s| < INT_LIMIT
    ensures KnownField(cc, m, field, s + post, at', wireType) == KnownField(cc, m, field, s, at, wireType)
  {
    if wireType == 2 {
      if Chunk(s, at, wireType).Parsed? { ChunkExtend(s, post, at, at', wireType); }
    } else if wireType == 0 {
      VarintInExtend(s, post, if m.Params? then TWO_32 else TWO_64);
    }
  }

  lemma UnknownFieldExtend<C>(m: Message<C>, s: Bytes, post: Bytes, at: nat, at': nat)
    requires UnknownField(m, s, at).Parsed? && at' + |s + post| < INT_LIMIT
    ensures UnknownField(m, s + post, at') == UnknownField(m, s, at)
  {
    var f, n := EntriesOf(s), SkipResult(s).end;
    var t := FieldIsTree(f, s);
    FlatThenAppend(t, s[n..], post);
    FieldReads(EntriesOf(s + post), s + post, t, s[n..] + post);
  }

  lemma TaggedExtend<C>(
    cc: CoinCodec<C>, m: Message<C>, wire: nat, n: nat, s: Bytes, post: Bytes, at: nat, at': nat)
    requires 1 <= n <= |s| && Tagged(cc, m, wire, n, s, at).Parsed? && at' + |s + post| < INT_LIMIT
    ensures Tagged(cc, m, wire, n, s + post, at') == Tagged(cc, m, wire, n, s, at)
  {
    if Knows(m, FieldNum(wire)) {
      var rest := s[n..];
      assert (s + post)[n..] == rest + post;
      KnownFieldExtend(cc, m, FieldNum(wire), rest, post, at + n, at' + n, wire % 8);
    } else {
      UnknownFieldExtend(m, s, post, at, at');
    }
  }

  /** A field that was read is read the same whatever follows it, and wherever in
      a message it stands. */
  lemma StepExtend<C>(cc: CoinCodec<C>, m: Message<C>, s: Bytes, post: Bytes, at: nat, at': nat)
    requires Step(cc, m, s, at).Parsed? && at' + |s + post| < INT_LIMIT
    ensures Step(cc, m, s + post, at') == Step(cc, m, s, at)
  {
    VarintInExtend(s, post, TWO_64);
    TaggedExtend(cc, m, VarintIn(s, TWO_64).value, VarintIn(s, TWO_64).used, s, post, at, at');
  }

  lemma StepIsLocal<C(!new)>(cc: CoinCodec<C>)
    ensures Local(StepOf(cc))
  {
    forall m: Message<C>, s: Bytes, post: Bytes, at: nat, at': nat ensures SameField(StepOf(cc), m, s, post, at, at') {
      if Step(cc, m, s, at).Parsed? && at' + |s + post| < INT_LIMIT {
        StepExtend(cc, m, s, post, at, at');
      }
    }
  }
}
