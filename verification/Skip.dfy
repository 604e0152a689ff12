/** Skipping an unknown field: the scan with a depth counter, the grammar it
    recognises, and the trees that grammar describes. */
module Skip {
  import opened Bytes
  import opened Varints

  const INT_LIMIT := 0x8000_0000_0000_0000

  type Span = n: nat | n >= 1 witness 1

  /** A tag with the payload that belongs to it: how many bytes they take, which
      may be more than there are. */
  datatype Entry = Scalar(size: Span) | Open(size: Span) | Close(size: Span) | Bad(error: WireError)

  /** The payload behind a tag of `n` bytes. */
  function Payload(wireType: nat, n: Span, s: Bytes): Entry {
    if wireType == 0 then
      match VarintIn(s, TWO_64)
      case Failed(e) => Bad(e)
      case Parsed(_, m) => Scalar(n + m)
    else if wireType == 1 then Scalar(n + 8)
    else if wireType == 2 then
      match VarintIn(s, TWO_64)
      case Failed(e) => Bad(e)
      case Parsed(length, m) => if length >= INT_LIMIT then Bad(InvalidLength) else Scalar(n + m + length)
    else if wireType == 3 then Open(n)
    else if wireType == 4 then Close(n)
    else if wireType == 5 then Scalar(n + 4)
    else Bad(IllegalWireType)
  }

  /** The entry at the front of some bytes. */
  function Head(s: Bytes): Entry {
    match VarintIn(s, TWO_64)
    case Failed(e) => Bad(e)
    case Parsed(wire, n) => Payload(wire % 8, n, s[n..])
  }

  /** The entry at an index; an end outside the range of `int` is an error. */
  function EntryAt(s: Bytes, i: nat): Entry
    requires i <= |s|
  {
    var e := Head(s[i..]);
    if e.Scalar? && i + e.size >= INT_LIMIT then Bad(InvalidLength) else e
  }

  /** `f` holds the entries that start at the indices of `s`, whether or not a
      scan comes there. */
  ghost predicate Describes(f: seq<Entry>, s: Bytes) {
    |f| == |s| && forall i {:trigger EntryAt(s, i)} | 0 <= i < |s| :: EntryAt(s, i) == f[i]
  }

  function EntriesOf(s: Bytes): (r: seq<Entry>)
    ensures Describes(r, s)
  {
    seq(|s|, i requires 0 <= i < |s| => EntryAt(s, i))
  }

  /** Where something that was skipped ends. */
  datatype Extent = Ends(end: nat) | Fails(error: WireError)

  /** The scan: it ends behind the entry that brings the depth back to zero. */
  function Skipped(f: seq<Entry>, i: nat, depth: nat): Extent
    decreases if i < |f| then |f| - i else 0
  {
    if i >= |f| then Fails(UnexpectedEOF)
    else
      match f[i]
      case Bad(e) => Fails(e)
      case Scalar(n) => if depth == 0 then Ends(i + n) else Skipped(f, i + n, depth)
      case Open(n) => Skipped(f, i + n, depth + 1)
      case Close(n) =>
        if depth == 0 then Fails(UnexpectedEndGroup)
        else if depth == 1 then Ends(i + n)
        else Skipped(f, i + n, depth - 1)
  }

  // ------------------------------------------------------------- the grammar

  /** One field: a scalar, or a start tag with the rest of its group. */
  function Field(f: seq<Entry>, i: nat): (r: Extent)
    ensures r.Ends? ==> i < r.end
  {
    if i >= |f| then Fails(UnexpectedEOF)
    else
      match f[i]
      case Bad(e) => Fails(e)
      case Scalar(n) => Ends(i + n)
      case Open(n) => Group(f, i + n)
      case Close(_) => Fails(UnexpectedEndGroup)
  }

  /** The rest of a group: fields, and then an end tag, whatever its number. */
  function Group(f: seq<Entry>, i: nat): (r: Extent)
    ensures r.Ends? ==> i < r.end && i < |f|
    decreases if i < |f| then |f| - i else 0
  {
    if i >= |f| then Fails(UnexpectedEOF)
    else
      match f[i]
      case Bad(e) => Fails(e)
      case Scalar(n) => Group(f, i + n)
      case Close(n) => Ends(i + n)
      case Open(n) =>
        match Group(f, i + n)
        case Fails(e) => Fails(e)
        case Ends(m) => Group(f, m)
  }

  /** Inside `depth + 1` groups the scan first finishes the innermost one. */
  lemma {:induction false} ScanFinishesGroup(f: seq<Entry>, i: nat, depth: nat)
    ensures Skipped(f, i, depth + 1) ==
            match Group(f, i)
            case Fails(e) => Fails(e)
            case Ends(n) => if depth == 0 then Ends(n) else Skipped(f, n, depth)
    decreases if i < |f| then |f| - i else 0
  {
    if i < |f| {
      match f[i]
      case Bad(_) =>
      case Close(_) =>
      case Scalar(n) => ScanFinishesGroup(f, i + n, depth);
      case Open(n) =>
        ScanFinishesGroup(f, i + n, depth + 1);
        var g := Group(f, i + n);
        if g.Ends? { ScanFinishesGroup(f, g.end, depth); }
    }
  }

  /** The scan recognises exactly one field, and fails with the same error. */
  lemma ScanIsField(f: seq<Entry>)
    ensures Skipped(f, 0, 0) == Field(f, 0)
  {
    if f != [] {
      match f[0]
      case Bad(_) =>
      case Close(_) =>
      case Scalar(_) =>
      case Open(n) => ScanFinishesGroup(f, n, 0);
    }
  }

  /** What skipping the field at the front of some bytes comes to. */
  function SkipResult(s: Bytes): Extent {
    Field(EntriesOf(s), 0)
  }

  // --------------------------------------------------------------- the trees

  /** A sequence of fields as a tree: every field keeps the bytes it is made of. */
  datatype Fields =
    | End
    | Plain(bytes: Bytes, rest: Fields)
    | Nest(open: Bytes, body: Fields, close: Bytes, rest: Fields)

  /** The bytes of a tree, followed by others. */
  function FlatThen(t: Fields, tail: Bytes): Bytes {
    match t
    case End => tail
    case Plain(b, rest) => b + FlatThen(rest, tail)
    case Nest(o, body, c, rest) => o + FlatThen(body, c + FlatThen(rest, tail))
  }

  function Flat(t: Fields): Bytes {
    FlatThen(t, [])
  }

  lemma {:induction false} FlatThenAppend(t: Fields, a: Bytes, b: Bytes)
    ensures FlatThen(t, a + b) == FlatThen(t, a) + b
  {
    match t
    case End =>
    case Plain(x, rest) =>
      FlatThenAppend(rest, a, b);
      assert x + (FlatThen(rest, a) + b) == (x + FlatThen(rest, a)) + b;
    case Nest(o, body, c, rest) =>
      var tail := FlatThen(rest, a);
      FlatThenAppend(rest, a, b);
      assert c + (tail + b) == (c + tail) + b;
      FlatThenAppend(body, c + tail, b);
      assert o + (FlatThen(body, c + tail) + b) == (o + FlatThen(body, c + tail)) + b;
  }

  lemma FlatFirst(t: Fields, tail: Bytes)
    ensures FlatThen(t, tail) == Flat(t) + tail
  {
    FlatThenAppend(t, [], tail);
    assert [] + tail == tail;
  }

  // The layout of the wire format, stated without the reader.

  /** These bytes, all of them, are a varint worth `v` in 64 bits. */
  ghost predicate VarintOf(b: Bytes, v: nat) {
    VarintForm(b) && v == VarintWorth(b) % TWO_64
  }

  /** The payload of a field that is no group: by wire type, a varint, eight
      bytes, a length with as many bytes, or four bytes. */
  ghost predicate PayloadOf(wireType: nat, b: Bytes) {
    || (wireType == 0 && VarintForm(b))
    || (wireType == 1 && |b| == 8)
    || (wireType == 2 && exists k: nat :: LengthThen(b, k))
    || (wireType == 5 && |b| == 4)
  }

  /** The first `k` bytes are a length, and as many follow. */
  ghost predicate LengthThen(b: Bytes, k: nat) {
    k <= |b| && VarintOf(b[..k], |b| - k) && |b| - k < INT_LIMIT
  }

  /** The first `n` bytes are a tag, and the rest is the payload it announces. */
  ghost predicate TagThen(b: Bytes, n: nat) {
    n <= |b| && VarintForm(b[..n]) && PayloadOf(VarintWorth(b[..n]) % 8, b[n..])
  }

  ghost predicate ScalarField(b: Bytes) {
    exists n: nat :: TagThen(b, n)
  }

  ghost predicate StartTag(b: Bytes) {
    VarintForm(b) && VarintWorth(b) % 8 == 3
  }

  ghost predicate EndTag(b: Bytes) {
    VarintForm(b) && VarintWorth(b) % 8 == 4
  }

  ghost predicate WellFormed(t: Fields) {
    match t
    case End => true
    case Plain(b, rest) => ScalarField(b) && WellFormed(rest)
    case Nest(o, body, c, rest) => StartTag(o) && EndTag(c) && WellFormed(body) && WellFormed(rest)
  }

  /** Bytes that the reader takes for one entry, no more and no less. */
  predicate Whole(b: Bytes) {
    !Head(b).Bad? && Head(b).size == |b|
  }

  lemma LowBits(x: nat)
    ensures x % TWO_64 % 8 == x % 8
  {
    var q, r := x / TWO_64, x % TWO_64;
    assert x == TWO_64 * q + r;
    assert r == 8 * (r / 8) + r % 8;
    ModOf(x, 8, 0x2000_0000_0000_0000 * q + r / 8, r % 8);
  }

  lemma VarintWhole(b: Bytes)
    ensures VarintForm(b) <==> VarintIn(b, TWO_64).Parsed? && VarintIn(b, TWO_64).used == |b|
    ensures VarintForm(b) ==> VarintIn(b, TWO_64).value == VarintWorth(b) % TWO_64
  {
    assert b[..|b|] == b;
    VarintInMeans(b, TWO_64, |b|, VarintWorth(b) % TWO_64);
    var r := VarintIn(b, TWO_64);
    if r.Parsed? { VarintInMeans(b, TWO_64, r.used, r.value); }
  }

  lemma VarintFront(b: Bytes, n: nat)
    requires n <= |b|
    ensures VarintForm(b[..n]) <==> VarintIn(b, TWO_64).Parsed? && VarintIn(b, TWO_64).used == n
    ensures VarintForm(b[..n]) ==> VarintIn(b, TWO_64).value == VarintWorth(b[..n]) % TWO_64
  {
    VarintInMeans(b, TWO_64, n, VarintWorth(b[..n]) % TWO_64);
    var r := VarintIn(b, TWO_64);
    if r.Parsed? { VarintInMeans(b, TWO_64, r.used, r.value); }
  }

  lemma LengthWhole(b: Bytes)
    ensures (exists k: nat :: LengthThen(b, k)) <==>
            var r := VarintIn(b, TWO_64); r.Parsed? && r.value < INT_LIMIT && r.used + r.value == |b|
  {
    if k: nat :| LengthThen(b, k) {
      VarintFront(b, k);
    }
    var r := VarintIn(b, TWO_64);
    if r.Parsed? {
      VarintFront(b, r.used);
      if r.value < INT_LIMIT && r.used + r.value == |b| { assert LengthThen(b, r.used); }
    }
  }

  lemma PayloadWhole(wireType: nat, n: Span, b: Bytes)
    ensures PayloadOf(wireType, b) <==> Payload(wireType, n, b) == Scalar(n + |b|)
  {
    VarintWhole(b);
    LengthWhole(b);
  }

  lemma ScalarLayout(b: Bytes)
    ensures Whole(b) && Head(b).Scalar? <==> ScalarField(b)
  {
    var tag := VarintIn(b, TWO_64);
    if n: nat :| TagThen(b, n) {
      VarintFront(b, n);
    }
    if tag.Parsed? {
      VarintFront(b, tag.used);
      LowBits(VarintWorth(b[..tag.used]));
      PayloadWhole(tag.value % 8, tag.used, b[tag.used..]);
      assert TagThen(b, tag.used) <==> PayloadOf(tag.value % 8, b[tag.used..]);
    }
  }

  lemma TagLayout(b: Bytes)
    ensures Whole(b) && Head(b).Open? <==> StartTag(b)
    ensures Whole(b) && Head(b).Close? <==> EndTag(b)
  {
    VarintWhole(b);
    LowBits(VarintWorth(b));
  }

  /** The reader's entries are those of the layout: scalar fields, start tags and
      end tags, and nothing else. */
  lemma EntryLayout(b: Bytes)
    ensures Whole(b) && Head(b).Scalar? <==> ScalarField(b)
    ensures Whole(b) && Head(b).Open? <==> StartTag(b)
    ensures Whole(b) && Head(b).Close? <==> EndTag(b)
    ensures Whole(b) <==> ScalarField(b) || StartTag(b) || EndTag(b)
  {
    ScalarLayout(b);
    TagLayout(b);
  }

  /** Where the reader stops without an entry, behind a tag of `n` bytes: at the
      wire types 6 and 7, at a number that is no varint, and at a length that no
      `int` can hold. Fields of fixed width are taken for complete here. */
  lemma HeadRefuses(s: Bytes, n: nat)
    requires n <= |s| && VarintForm(s[..n])
    ensures var wireType, v := VarintWorth(s[..n]) % 8, VarintIn(s[n..], TWO_64);
            && (wireType >= 6 <==> Head(s) == Bad(IllegalWireType))
            && (wireType == 1 ==> Head(s) == Scalar(n + 8))
            && (wireType == 5 ==> Head(s) == Scalar(n + 4))
            && (wireType in {0, 2} && v.Failed? ==> Head(s) == Bad(v.error))
            && (wireType == 2 && v.Parsed? ==>
                  Head(s) == if v.value >= INT_LIMIT then Bad(InvalidLength) else Scalar(n + v.used + v.value))
  {
    VarintFront(s, n);
    LowBits(VarintWorth(s[..n]));
    VarintInMeans(s[n..], TWO_64, 0, 0);
  }

  predicate One(t: Fields) {
    !t.End? && t.rest.End?
  }

  lemma PayloadExtend(wireType: nat, n: Span, s: Bytes, post: Bytes)
    requires !Payload(wireType, n, s).Bad?
    ensures Payload(wireType, n, s + post) == Payload(wireType, n, s)
  {
    if wireType == 0 || wireType == 2 { VarintInExtend(s, post, TWO_64); }
  }

  /** An entry does not depend on what follows it ... */
  lemma HeadExtend(s: Bytes, post: Bytes)
    requires !Head(s).Bad?
    ensures Head(s + post) == Head(s)
  {
    var tag := VarintIn(s, TWO_64);
    VarintInExtend(s, post, TWO_64);
    assert (s + post)[tag.used..] == s[tag.used..] + post;
    PayloadExtend(tag.value % 8, tag.used, s[tag.used..], post);
  }

  lemma PayloadPrefix(wireType: nat, n: Span, s: Bytes, k: nat)
    requires !Payload(wireType, n, s).Bad? && Payload(wireType, n, s).size <= n + k && k <= |s|
    ensures Payload(wireType, n, s[..k]) == Payload(wireType, n, s)
  {
    if wireType == 0 || wireType == 2 { VarintPrefix(s, 0, k); }
  }

  lemma PayloadSize(wireType: nat, n: Span, s: Bytes)
    ensures !Payload(wireType, n, s).Bad? ==> Payload(wireType, n, s).size >= n
  {
  }

  /** ... and is the same in its own bytes. */
  lemma HeadPrefix(s: Bytes, k: nat)
    requires !Head(s).Bad? && Head(s).size <= k <= |s|
    ensures Head(s[..k]) == Head(s)
  {
    var tag := VarintIn(s, TWO_64);
    PayloadSize(tag.value % 8, tag.used, s[tag.used..]);
    VarintPrefix(s, 0, k);
    assert s[..k][tag.used..] == s[tag.used..][..k - tag.used];
    PayloadPrefix(tag.value % 8, tag.used, s[tag.used..], k - tag.used);
  }

  /** What stands at the front of the rest of `s` is the entry at that index. */
  lemma EntryIn(f: seq<Entry>, s: Bytes, i: nat, b: Bytes, tail: Bytes)
    requires Describes(f, s) && i <= |s| && s[i..] == b + tail && Whole(b) && |s| < INT_LIMIT
    ensures i < |f| && f[i] == Head(b)
    ensures i + |b| <= |s| && s[i + |b|..] == tail
  {
    assert EntryAt(s, i) == f[i];
    HeadExtend(b, tail);
    assert s[i..][|b|..] == tail;
  }

  lemma GroupGoesOn(f: seq<Entry>, i: nat, next: nat, end: nat)
    requires i < |f| && f[i].Scalar? && next == i + f[i].size && Group(f, next) == Ends(end)
    ensures Group(f, i) == Ends(end)
  {
  }

  lemma GroupNests(f: seq<Entry>, i: nat, next: nat, m: nat, end: nat)
    requires i < |f| && f[i].Open? && next == i + f[i].size && Group(f, next) == Ends(m) && Group(f, m) == Ends(end)
    ensures Group(f, i) == Ends(end)
  {
  }

  /** The first entry of a field with something behind it. */
  lemma PlainFirst(f: seq<Entry>, s: Bytes, i: nat, b: Bytes, rest: Fields, tail: Bytes) returns (next: nat)
    requires Describes(f, s) && |s| < INT_LIMIT && i <= |s| && s[i..] == FlatThen(Plain(b, rest), tail)
    requires WellFormed(Plain(b, rest))
    ensures i < |f| && f[i].Scalar? && next == i + f[i].size
    ensures next <= |s| && s[next..] == FlatThen(rest, tail)
  {
    next := i + |b|;
    ScalarLayout(b);
    EntryIn(f, s, i, b, FlatThen(rest, tail));
  }

  lemma NestFirst(f: seq<Entry>, s: Bytes, i: nat, o: Bytes, body: Fields, c: Bytes, rest: Fields, tail: Bytes)
    returns (next: nat)
    requires Describes(f, s) && |s| < INT_LIMIT && i <= |s| && s[i..] == FlatThen(Nest(o, body, c, rest), tail)
    requires WellFormed(Nest(o, body, c, rest))
    ensures i < |f| && f[i].Open? && next == i + f[i].size
    ensures next <= |s| && s[next..] == FlatThen(body, c + FlatThen(rest, tail))
  {
    next := i + |o|;
    TagLayout(o);
    EntryIn(f, s, i, o, FlatThen(body, c + FlatThen(rest, tail)));
  }

  lemma CloseEnds(f: seq<Entry>, s: Bytes, i: nat, close: Bytes, post: Bytes) returns (end: nat)
    requires Describes(f, s) && |s| < INT_LIMIT && i <= |s| && s[i..] == close + post
    requires EndTag(close)
    ensures end + |post| == |s| && s[end..] == post
    ensures Group(f, i) == Ends(end)
  {
    TagLayout(close);
    EntryIn(f, s, i, close, post);
    end := i + |close|;
  }

  /** A well-formed tree and an end tag are read as the rest of a group, wherever
      they are. */
  lemma {:induction false} GroupReads(f: seq<Entry>, s: Bytes, i: nat, t: Fields, close: Bytes, post: Bytes)
    returns (end: nat)
    requires Describes(f, s) && |s| < INT_LIMIT && i <= |s| && s[i..] == FlatThen(t, close + post)
    requires WellFormed(t) && EndTag(close)
    ensures end + |post| == |s| && s[end..] == post
    ensures Group(f, i) == Ends(end)
    decreases t
  {
    match t
    case End =>
      end := CloseEnds(f, s, i, close, post);
    case Plain(b, rest) =>
      var next := PlainFirst(f, s, i, b, rest, close + post);
      end := GroupReads(f, s, next, rest, close, post);
      GroupGoesOn(f, i, next, end);
    case Nest(o, body, c, rest) =>
      var next := NestFirst(f, s, i, o, body, c, rest, close + post);
      var m := GroupReads(f, s, next, body, c, FlatThen(rest, close + post));
      end := GroupReads(f, s, m, rest, close, post);
      GroupNests(f, i, next, m, end);
  }

  /** A field in front of some bytes is skipped, and nothing else. */
  lemma FieldReads(f: seq<Entry>, s: Bytes, t: Fields, post: Bytes)
    requires Describes(f, s) && s == FlatThen(t, post) && One(t) && WellFormed(t) && |s| < INT_LIMIT
    ensures |post| <= |s| && Field(f, 0) == Ends(|s| - |post|)
  {
    assert s[0..] == s;
    match t
    case Plain(b, _) =>
      ScalarLayout(b);
      EntryIn(f, s, 0, b, post);
    case Nest(o, body, c, _) =>
      TagLayout(o);
      EntryIn(f, s, 0, o, FlatThen(body, c + post));
      var end := GroupReads(f, s, |o|, body, c, post);
  }

  /** A group that is not closed runs out of data, whatever fields it has. */
  lemma {:induction false} GroupRunsOut(f: seq<Entry>, s: Bytes, i: nat, t: Fields)
    requires Describes(f, s) && |s| < INT_LIMIT && i <= |s| && s[i..] == FlatThen(t, []) && WellFormed(t)
    ensures Group(f, i) == Fails(UnexpectedEOF)
    decreases t
  {
    match t
    case End =>
    case Plain(b, rest) =>
      var next := PlainFirst(f, s, i, b, rest, []);
      GroupRunsOut(f, s, next, rest);
    case Nest(o, body, c, rest) =>
      var next := NestFirst(f, s, i, o, body, c, rest, []);
      var m := GroupReads(f, s, next, body, c, FlatThen(rest, []));
      GroupRunsOut(f, s, m, rest);
  }

  /** Nothing to skip, an end of a group where none began, and a group without
      an end. */
  lemma SkipRefuses(s: Bytes, o: Bytes, t: Fields)
    ensures SkipResult([]) == Fails(UnexpectedEOF)
    ensures EndTag(o) ==> SkipResult(o + s) == Fails(UnexpectedEndGroup)
    ensures StartTag(o) && WellFormed(t) && |o + Flat(t)| < INT_LIMIT ==>
              SkipResult(o + Flat(t)) == Fails(UnexpectedEOF)
  {
    TagLayout(o);
    if EndTag(o) {
      HeadExtend(o, s);
      assert (o + s)[0..] == o + s;
      assert EntryAt(o + s, 0) == EntriesOf(o + s)[0];
    }
    if StartTag(o) && WellFormed(t) && |o + Flat(t)| < INT_LIMIT {
      var b := o + Flat(t);
      assert b[0..] == b && b[|o|..] == Flat(t);
      EntryIn(EntriesOf(b), b, 0, o, Flat(t));
      GroupRunsOut(EntriesOf(b), b, |o|, t);
    }
  }

  /** The bytes of the entry at an index. */
  lemma EntryBytes(f: seq<Entry>, s: Bytes, i: nat)
    requires Describes(f, s) && i < |s| && !f[i].Bad? && i + f[i].size <= |s|
    ensures var b := s[i..i + f[i].size];
            && (f[i].Scalar? ==> ScalarField(b)) && (f[i].Open? ==> StartTag(b)) && (f[i].Close? ==> EndTag(b))
  {
    assert EntryAt(s, i) == f[i];
    var n := f[i].size;
    HeadPrefix(s[i..], n);
    assert s[i..][..n] == s[i..i + n];
    EntryLayout(s[i..i + n]);
  }

  /** Tags of groups lie within the data. */
  lemma TagsWithin(f: seq<Entry>, s: Bytes, i: nat)
    requires Describes(f, s) && i < |s|
    ensures f[i].Open? || f[i].Close? ==> i + f[i].size <= |s|
  {
    assert EntryAt(s, i) == f[i];
  }

  lemma {:induction false} GroupWithin(f: seq<Entry>, s: Bytes, i: nat)
    requires Describes(f, s) && Group(f, i).Ends?
    ensures Group(f, i).end <= |s|
    decreases if i < |s| then |s| - i else 0
  {
    TagsWithin(f, s, i);
    match f[i]
    case Scalar(n) => GroupWithin(f, s, i + n);
    case Open(n) => GroupWithin(f, s, Group(f, i + n).end);
    case Close(n) =>
  }

  lemma Cut(s: Bytes, i: nat, n: nat)
    requires i <= n <= |s|
    ensures s[i..] == s[i..n] + s[n..]
  {
  }

  /** What is read as the rest of a group is a tree and an end tag. */
  lemma {:induction false} GroupIsTree(f: seq<Entry>, s: Bytes, i: nat) returns (t: Fields, close: Bytes)
    requires Describes(f, s) && Group(f, i).Ends?
    ensures WellFormed(t) && EndTag(close)
    ensures Group(f, i).end <= |s| && s[i..] == FlatThen(t, close + s[Group(f, i).end..])
    decreases if i < |s| then |s| - i else 0
  {
    var next := i + f[i].size;
    GroupWithin(f, s, i);
    TagsWithin(f, s, i);
    EntryBytes(f, s, i);
    Cut(s, i, next);
    if f[i].Close? {
      t, close := End, s[i..next];
    } else if f[i].Scalar? {
      var rest;
      rest, close := GroupIsTree(f, s, next);
      t := Plain(s[i..next], rest);
    } else {
      var body, c := GroupIsTree(f, s, next);
      var rest;
      rest, close := GroupIsTree(f, s, Group(f, next).end);
      t := Nest(s[i..next], body, c, rest);
    }
  }

  lemma FieldIsTree(f: seq<Entry>, s: Bytes) returns (t: Fields)
    requires Describes(f, s) && Field(f, 0).Ends? && Field(f, 0).end <= |s|
    ensures One(t) && WellFormed(t) && s == FlatThen(t, s[Field(f, 0).end..])
  {
    var next := f[0].size;
    TagsWithin(f, s, 0);
    EntryBytes(f, s, 0);
    Cut(s, 0, next);
    assert s[0..] == s;
    if f[0].Scalar? {
      t := Plain(s[0..next], End);
    } else {
      var body, c := GroupIsTree(f, s, next);
      t := Nest(s[0..next], body, c, End);
    }
  }

  /** The bytes are one complete field or balanced group. */
  ghost predicate WholeField(b: Bytes) {
    exists t :: One(t) && WellFormed(t) && Flat(t) == b
  }

  /** The scan stops within the data, after `n` bytes, exactly when they are one
      complete field or balanced group. */
  lemma ScanIffTree(s: Bytes, n: nat)
    requires n <= |s| < INT_LIMIT
    ensures SkipResult(s) == Ends(n) <==> WholeField(s[..n])
  {
    var f := EntriesOf(s);
    if Field(f, 0) == Ends(n) {
      var t := FieldIsTree(f, s);
      FlatFirst(t, s[n..]);
      assert (Flat(t) + s[n..])[..n] == Flat(t);
    }
    if t :| One(t) && WellFormed(t) && Flat(t) == s[..n] {
      FlatFirst(t, s[n..]);
      assert s == Flat(t) + s[n..];
      FieldReads(f, s, t, s[n..]);
    }
  }

  // ---------------------------------------------------------------- the loop

  /** Read one tag and step over its payload. */
  method ReadEntry(dAtA: Bytes, start: nat, ghost f: seq<Entry>) returns (r: Entry)
    requires start < |dAtA| && Describes(f, dAtA)
    ensures r == f[start]
  {
    assert EntryAt(dAtA, start) == f[start];
    ghost var s := dAtA[start..];
    var wire := ReadVarint(dAtA, start, TWO_64);
    if wire.Failed? { return Bad(wire.error); }
    var iNdEx, wireType := start + wire.used, wire.value % 8;
    assert dAtA[iNdEx..] == s[wire.used..];
    if wireType == 0 {
      var v := ReadVarint(dAtA, iNdEx, TWO_64);
      if v.Failed? { return Bad(v.error); }
      iNdEx := iNdEx + v.used;
    } else if wireType == 1 {
      iNdEx := iNdEx + 8;
    } else if wireType == 2 {
      var length := ReadVarint(dAtA, iNdEx, TWO_64);
      if length.Failed? { return Bad(length.error); }
      if length.value >= INT_LIMIT { return Bad(InvalidLength); }
      iNdEx := iNdEx + length.used + length.value;
    } else if wireType == 3 {
      return Open(iNdEx - start);
    } else if wireType == 4 {
      return Close(iNdEx - start);
    } else if wireType == 5 {
      iNdEx := iNdEx + 4;
    } else {
      return Bad(IllegalWireType);
    }
    if iNdEx >= INT_LIMIT { return Bad(InvalidLength); }
    r := Scalar(iNdEx - start);
  }

  lemma ScanStep(f: seq<Entry>, i: nat, depth: nat, depth': nat)
    requires i < |f| && !f[i].Bad?
    requires depth' == if f[i].Open? then depth + 1 else if f[i].Close? then depth - 1 else depth
    ensures var next := i + f[i].size;
            Skipped(f, i, depth) == if depth' == 0 then Ends(next) else Skipped(f, next, depth')
  {
  }

  /** The scan over the data whose entries are `f`. */
  method Scan(dAtA: Bytes, ghost f: seq<Entry>) returns (r: Extent)
    requires Describes(f, dAtA)
    ensures r == Skipped(f, 0, 0)
  {
    ghost var whole := Skipped(f, 0, 0);
    var iNdEx, depth: nat := 0, 0;
    while iNdEx < |dAtA|
      invariant whole == Skipped(f, iNdEx, depth)
    {
      var e := ReadEntry(dAtA, iNdEx, f);
      if e.Bad? { return Fails(e.error); }
      ghost var before := depth;
      if e.Open? {
        depth := depth + 1;
      } else if e.Close? {
        if depth == 0 { return Fails(UnexpectedEndGroup); }
        depth := depth - 1;
      }
      ScanStep(f, iNdEx, before, depth);
      iNdEx := iNdEx + e.size;
      if depth == 0 { return Ends(iNdEx); }
    }
    r := Fails(UnexpectedEOF);
  }

  /** The length of the field at the front of the data. */
  method SkipField(dAtA: Bytes) returns (r: Extent)
    ensures r == SkipResult(dAtA)
    ensures forall n: nat | n <= |dAtA| < INT_LIMIT :: r == Ends(n) <==> WholeField(dAtA[..n])
  {
    forall n: nat | n <= |dAtA| < INT_LIMIT ensures SkipResult(dAtA) == Ends(n) <==> WholeField(dAtA[..n]) {
      ScanIffTree(dAtA, n);
    }
    ScanIsField(EntriesOf(dAtA));
    r := Scan(dAtA, EntriesOf(dAtA));
  }
}
