/** Reading a message field by field. */
module Decoding {
  import opened Bytes
  import opened Varints
  import opened Skip

  function Behind<T>(n: nat, r: Parsed<T>): Parsed<T> {
    match r
    case Failed(e) => Failed(e)
    case Parsed(v, k) => Parsed(v, n + k)
  }

  /** The value after all fields of `s`, read one after the other by `step` on top
      of `m`. `at` is the index of `s` in the whole message. */
  function Fold<M>(step: (M, Bytes, nat) -> Parsed<M>, m: M, s: Bytes, at: nat): (r: Parsed<M>)
    ensures r.Parsed? ==> r.used == |s|
    decreases |s|
  {
    if s == [] then Parsed(m, 0)
    else
      match step(m, s, at)
      case Failed(e) => Failed(e)
      case Parsed(m', n) => if 1 <= n <= |s| then Behind(n, Fold(step, m', s[n..], at + n)) else Failed(UnexpectedEOF)
  }

  /** A field that was read is read the same whatever follows it, and wherever in
      a message it stands ... */
  predicate SameField<M(==)>(step: (M, Bytes, nat) -> Parsed<M>, m: M, s: Bytes, post: Bytes, at: nat, at': nat) {
    step(m, s, at).Parsed? && at' + |s + post| < INT_LIMIT ==> step(m, s + post, at') == step(m, s, at)
  }

  /** ... for every field. */
  ghost predicate Local<M(!new)>(step: (M, Bytes, nat) -> Parsed<M>) {
    forall m, s, post, at: nat, at': nat :: SameField(step, m, s, post, at, at')
  }

  /** `a` takes the value `m` to `m'`. */
  predicate Reads<M(==)>(step: (M, Bytes, nat) -> Parsed<M>, m: M, a: Bytes, m': M) {
    Fold(step, m, a, 0) == Parsed(m', |a|)
  }

  lemma FoldStep<M>(step: (M, Bytes, nat) -> Parsed<M>, m: M, s: Bytes, at: nat, m': M, n: nat, next: nat)
    requires s != [] && step(m, s, at) == Parsed(m', n) && 1 <= n <= |s| && next == at + n
    ensures Fold(step, m, s, at) == Behind(n, Fold(step, m', s[n..], next))
  {
  }

  /** Reading something begins with its first field. */
  lemma FirstField<M>(step: (M, Bytes, nat) -> Parsed<M>, m: M, a: Bytes, at: nat, m': M)
    returns (m1: M, n: nat)
    requires a != [] && Fold(step, m, a, at) == Parsed(m', |a|)
    ensures step(m, a, at) == Parsed(m1, n) && 1 <= n <= |a|
    ensures Fold(step, m1, a[n..], at + n) == Parsed(m', |a[n..]|)
  {
    m1, n := step(m, a, at).value, step(m, a, at).used;
  }

  lemma LocalAt<M(!new)>(
    step: (M, Bytes, nat) -> Parsed<M>, m: M, s: Bytes, post: Bytes, at: nat, at': nat)
    requires Local(step) && step(m, s, at).Parsed? && at' + |s + post| < INT_LIMIT
    ensures step(m, s + post, at') == step(m, s, at)
  {
    assert SameField(step, m, s, post, at, at');
  }

  lemma BehindTwice<T>(n: nat, k: nat, r: Parsed<T>)
    ensures Behind(n, Behind(k, r)) == Behind(n + k, r)
  {
  }

  /** One field of `a` read in front of `b`, and what follows from the rest. */
  lemma ThenStep<M>(
    step: (M, Bytes, nat) -> Parsed<M>, m: M, a: Bytes, m1: M, n: nat, b: Bytes, at: nat, end: Parsed<M>)
    requires 1 <= n <= |a| && step(m, a + b, at) == Parsed(m1, n)
    requires Fold(step, m1, a[n..] + b, at + n) == Behind(|a| - n, end)
    ensures Fold(step, m, a + b, at) == Behind(|a|, end)
  {
    assert (a + b)[n..] == a[n..] + b;
  }

  lemma Join<M(!new)>(
    step: (M, Bytes, nat) -> Parsed<M>, m: M, a: Bytes, m1: M, n: nat, b: Bytes, at: nat, at': nat, end: Parsed<M>)
    requires Local(step) && step(m, a, at) == Parsed(m1, n) && 1 <= n <= |a| && at' + |a + b| < INT_LIMIT
    requires Fold(step, m1, a[n..] + b, at' + n) == Behind(|a[n..]|, end)
    ensures Fold(step, m, a + b, at') == Behind(|a|, end)
  {
    LocalAt(step, m, a, b, at, at');
    ThenStep(step, m, a, m1, n, b, at', end);
  }

  lemma {:induction false} ReadsThenAt<M(!new)>(
    step: (M, Bytes, nat) -> Parsed<M>, m: M, a: Bytes, m': M, b: Bytes, at: nat, at': nat, pos: nat)
    requires Local(step) && Fold(step, m, a, at) == Parsed(m', |a|) && pos == at' + |a| && pos + |b| < INT_LIMIT
    ensures Fold(step, m, a + b, at') == Behind(|a|, Fold(step, m', b, pos))
    decreases |a|
  {
    if a == [] {
      assert a + b == b;
    } else {
      var m1, n := FirstField(step, m, a, at, m');
      ReadsThenAt(step, m1, a[n..], m', b, at + n, at' + n, pos);
      Join(step, m, a, m1, n, b, at, at', Fold(step, m', b, pos));
    }
  }

  /** Reading `a` and then `b` is reading them together. */
  lemma ReadsThen<M(!new)>(
    step: (M, Bytes, nat) -> Parsed<M>, m: M, a: Bytes, m': M, b: Bytes, at: nat, at': nat)
    requires Local(step) && Fold(step, m, a, at) == Parsed(m', |a|) && at' + |a + b| < INT_LIMIT
    ensures Fold(step, m, a + b, at') == Behind(|a|, Fold(step, m', b, at' + |a|))
  {
    ReadsThenAt(step, m, a, m', b, at, at', at' + |a|);
  }

  /** Where a part of a message stands makes no difference when it can be read. */
  lemma ReadsAnywhere<M(!new)>(step: (M, Bytes, nat) -> Parsed<M>, m: M, a: Bytes, at: nat, at': nat)
    requires Local(step) && Fold(step, m, a, at).Parsed? && at' + |a| < INT_LIMIT
    ensures Fold(step, m, a, at') == Fold(step, m, a, at)
  {
    assert a + [] == a;
    ReadsThen(step, m, a, Fold(step, m, a, at).value, [], at, at');
  }

  lemma Compose<M(!new)>(step: (M, Bytes, nat) -> Parsed<M>, m: M, a: Bytes, m': M, b: Bytes, m'': M)
    requires Local(step) && Reads(step, m, a, m') && Reads(step, m', b, m'') && |a + b| < INT_LIMIT
    ensures Reads(step, m, a + b, m'')
  {
    ReadsThen(step, m, a, m', b, 0, 0);
    ReadsAnywhere(step, m', b, 0, |a|);
  }

  /** Behind something that was read, the rest is read as by itself. */
  lemma ThenIff<M(!new)>(step: (M, Bytes, nat) -> Parsed<M>, m: M, a: Bytes, m': M, b: Bytes, m'': M)
    requires Local(step) && Reads(step, m, a, m') && |a + b| < INT_LIMIT
    ensures Reads(step, m, a + b, m'') <==> Reads(step, m', b, m'')
  {
    if Reads(step, m', b, m'') {
      Compose(step, m, a, m', b, m'');
    }
    if Reads(step, m, a + b, m'') {
      ReadsThen(step, m, a, m', b, 0, 0);
      ReadsAnywhere(step, m', b, |a|, 0);
    }
  }

  /** Bytes that leave the value alone can be put between fields, or taken away,
      without any effect. */
  lemma Inserting<M(!new)>(step: (M, Bytes, nat) -> Parsed<M>, m: M, a: Bytes, m': M, u: Bytes, b: Bytes, m'': M)
    requires Local(step) && Reads(step, m, a, m') && Reads(step, m', u, m') && |a + u + b| < INT_LIMIT
    ensures Reads(step, m, a + u + b, m'') <==> Reads(step, m, a + b, m'')
  {
    Compose(step, m, a, m', u, m');
    ThenIff(step, m, a + u, m', b, m'');
    ThenIff(step, m, a, m', b, m'');
  }

  lemma OneField<M>(step: (M, Bytes, nat) -> Parsed<M>, m: M, a: Bytes, m': M)
    requires a != [] && step(m, a, 0) == Parsed(m', |a|)
    ensures Reads(step, m, a, m')
  {
  }
}
