/** Iteration order of the key/value store: the sorted list of a key set, and
    the seek operation an iterator is made of. */
module Order {
  import opened Bytes
  import opened Types

  predicate IsLeast(s: set<Bytes>, k: Bytes) {
    k in s && forall x | x in s :: x == k || Lt(k, x)
  }

  lemma {:induction false} LeastExists(s: set<Bytes>)
    requires s != {}
    ensures exists k :: IsLeast(s, k)
    decreases s
  {
    var x :| x in s;
    if s == {x} {
      assert IsLeast(s, x);
    } else {
      LeastExists(s - {x});
      var m :| IsLeast(s - {x}, m);
      LtTotal(x, m);
      if Lt(x, m) {
        forall y | y in s ensures y == x || Lt(x, y) {
          if y != x && y != m { LtTransitive(x, m, y); }
        }
        assert IsLeast(s, x);
      } else {
        assert IsLeast(s, m);
      }
    }
  }

  lemma LeastUnique(s: set<Bytes>, a: Bytes, b: Bytes)
    requires IsLeast(s, a) && IsLeast(s, b)
    ensures a == b
  {
    if a != b { LtAsymmetric(a, b); }
  }

  ghost predicate StrictlySorted(r: seq<Bytes>) {
    forall i, j | 0 <= i < j < |r| :: Lt(r[i], r[j])
  }

  ghost predicate Lists(r: seq<Bytes>, s: set<Bytes>) {
    && StrictlySorted(r)
    && (forall k | k in s :: k in r)
    && (forall i | 0 <= i < |r| :: r[i] in s)
  }

  function Least(s: set<Bytes>): (k: Bytes)
    requires s != {}
    ensures IsLeast(s, k)
  {
    LeastExists(s);
    assert forall a, b | IsLeast(s, a) && IsLeast(s, b) :: a == b by {
      forall a, b | IsLeast(s, a) && IsLeast(s, b) ensures a == b { LeastUnique(s, a, b); }
    }
    var k :| k in s && IsLeast(s, k);
    k
  }

  /** The keys of `s` in iteration order. */
  function Sorted(s: set<Bytes>): (r: seq<Bytes>)
    ensures Lists(r, s)
    decreases s
  {
    if s == {} then [] else [Least(s)] + Sorted(s - {Least(s)})
  }

  /** Order and contents determine the list. */
  lemma {:induction false} SortedUnique(r: seq<Bytes>, q: seq<Bytes>, s: set<Bytes>)
    requires Lists(r, s) && Lists(q, s)
    ensures r == q
    decreases s
  {
    ListsEmpty(r, s);
    ListsEmpty(q, s);
    if s != {} {
      HeadIsLeast(r, s);
      HeadIsLeast(q, s);
      LeastUnique(s, r[0], q[0]);
      TailLists(r, s);
      TailLists(q, s);
      SortedUnique(r[1..], q[1..], s - {r[0]});
      assert r == [r[0]] + r[1..] && q == [q[0]] + q[1..];
    }
  }

  lemma ListsEmpty(r: seq<Bytes>, s: set<Bytes>)
    requires Lists(r, s)
    ensures r == [] <==> s == {}
  {
    if r != [] {
      assert r[0] in s;
    }
    if s != {} {
      var w :| w in s;
    }
  }

  lemma HeadIsLeast(r: seq<Bytes>, s: set<Bytes>)
    requires Lists(r, s) && s != {}
    ensures r != [] && IsLeast(s, r[0])
  {
    var w :| w in s;
    forall x | x in s ensures x == r[0] || Lt(r[0], x) {
      var i :| 0 <= i < |r| && r[i] == x;
    }
  }

  lemma TailLists(r: seq<Bytes>, s: set<Bytes>)
    requires Lists(r, s) && r != []
    ensures Lists(r[1..], s - {r[0]})
  {
    forall i | 0 <= i < |r| - 1 ensures r[1..][i] in s - {r[0]} {
      LtAsymmetric(r[0], r[i + 1]);
    }
    forall k | k in s - {r[0]} ensures k in r[1..] {
      var i :| 0 <= i < |r| && r[i] == k;
      assert r[1..][i - 1] == k;
    }
  }

  lemma SortedIs(r: seq<Bytes>, s: set<Bytes>)
    requires Lists(r, s)
    ensures r == Sorted(s)
  {
    SortedUnique(r, Sorted(s), s);
  }

  // ------------------------------------------------------------- iteration

  /** The keys under a prefix that an iterator positioned after `after` has
      still to visit. */
  function Ahead(m: Kv, prefix: Bytes, after: Option<Bytes>): set<Bytes> {
    set k | k in m && prefix <= k && (after.None? || Lt(after.value, k))
  }

  /** Where the iterator moves next: the least key ahead. */
  function Seek(m: Kv, prefix: Bytes, after: Option<Bytes>): (r: Option<Bytes>)
    ensures r.None? <==> Ahead(m, prefix, after) == {}
    ensures r.Some? ==> IsLeast(Ahead(m, prefix, after), r.value)
  {
    var s := Ahead(m, prefix, after);
    if s == {} then None else Some(Least(s))
  }

  /** Moving an iterator to the least key ahead takes exactly that key out of
      what is ahead. */
  lemma AheadAfter(m: Kv, prefix: Bytes, after: Option<Bytes>, k: Bytes)
    requires IsLeast(Ahead(m, prefix, after), k)
    ensures Ahead(m, prefix, Some(k)) == Ahead(m, prefix, after) - {k}
  {
    var s := Ahead(m, prefix, after);
    forall x ensures x in Ahead(m, prefix, Some(k)) <==> x in s - {k} {
      if x in Ahead(m, prefix, Some(k)) {
        LtAsymmetric(k, x);
        if after.Some? { LtTransitive(after.value, k, x); }
      }
    }
  }

  /** Appending a key above every visited one keeps the visited list sorted. */
  lemma ListsAppend(r: seq<Bytes>, s: set<Bytes>, k: Bytes)
    requires Lists(r, s)
    requires forall x | x in s :: Lt(x, k)
    ensures Lists(r + [k], s + {k})
  {
    var q := r + [k];
    forall x | x in s + {k} ensures x in q {
      if x in s {
        var i :| 0 <= i < |r| && r[i] == x;
        assert q[i] == x;
      } else {
        assert q[|r|] == k;
      }
    }
  }

  lemma ListsWithout(r: seq<Bytes>, s: set<Bytes>, i: nat)
    requires Lists(r, s) && i < |r|
    ensures Lists(r[..i] + r[i + 1..], s - {r[i]})
  {
    var q := r[..i] + r[i + 1..];
    forall j | 0 <= j < |q| ensures q[j] in s - {r[i]} {
      var k := if j < i then j else j + 1;
      assert q[j] == r[k];
      if k < i { LtAsymmetric(r[k], r[i]); } else { LtAsymmetric(r[i], r[k]); }
    }
    forall x | x in s - {r[i]} ensures x in q {
      var k :| 0 <= k < |r| && r[k] == x;
      assert q[if k < i then k else k - 1] == x;
    }
  }

  /** A sorted list of the lowest keys of a set is a prefix of the sorted set. */
  lemma ListsPrefix(r: seq<Bytes>, s: set<Bytes>, all: set<Bytes>)
    requires Lists(r, s) && s <= all
    requires forall x, y | x in s && y in all - s :: Lt(x, y)
    ensures r <= Sorted(all)
  {
    var rest := Sorted(all - s);
    var q := r + rest;
    forall k | k in all ensures k in q {
      if k in s {
        var i :| 0 <= i < |r| && r[i] == k;
        assert q[i] == k;
      } else {
        assert k in all - s;
        var i :| 0 <= i < |rest| && rest[i] == k;
        assert q[|r| + i] == k;
      }
    }
    SortedIs(q, all);
  }

  // ----------------------------------------------- reading a whole prefix

  /** An iterator over a prefix has shown `shown`, in order. */
  ghost predicate Reading(m: Kv, prefix: Bytes, cursor: Option<Bytes>, shown: seq<Bytes>) {
    && Lists(shown, Ahead(m, prefix, None) - Ahead(m, prefix, cursor))
    && (cursor.Some? ==> forall i | 0 <= i < |shown| :: shown[i] == cursor.value || Lt(shown[i], cursor.value))
    && (cursor.None? ==> shown == [])
  }

  lemma ReadStart(m: Kv, prefix: Bytes)
    ensures Reading(m, prefix, None, [])
  {
  }

  lemma ReadStep(m: Kv, prefix: Bytes, cursor: Option<Bytes>, shown: seq<Bytes>, k: Bytes)
    requires Reading(m, prefix, cursor, shown)
    requires IsLeast(Ahead(m, prefix, cursor), k)
    ensures Reading(m, prefix, Some(k), shown + [k])
    ensures Ahead(m, prefix, Some(k)) < Ahead(m, prefix, cursor)
  {
    var all := Ahead(m, prefix, None);
    var done := all - Ahead(m, prefix, cursor);
    AheadAfter(m, prefix, cursor, k);
    forall x | x in done ensures Lt(x, k) {
      var i :| 0 <= i < |shown| && shown[i] == x;
      if x != cursor.value { LtTransitive(x, cursor.value, k); }
    }
    ListsAppend(shown, done, k);
    assert all - Ahead(m, prefix, Some(k)) == done + {k};
  }

  lemma ReadPrefix(m: Kv, prefix: Bytes, cursor: Option<Bytes>, shown: seq<Bytes>)
    requires Reading(m, prefix, cursor, shown)
    ensures shown <= Sorted(Ahead(m, prefix, None))
  {
    var all := Ahead(m, prefix, None);
    var done := all - Ahead(m, prefix, cursor);
    forall x, y | x in done && y in all - done ensures Lt(x, y) {
      var i :| 0 <= i < |shown| && shown[i] == x;
      if x != cursor.value { LtTransitive(x, cursor.value, y); }
    }
    ListsPrefix(shown, done, all);
  }

  lemma ReadEnd(m: Kv, prefix: Bytes, cursor: Option<Bytes>, shown: seq<Bytes>)
    requires Reading(m, prefix, cursor, shown) && Ahead(m, prefix, cursor) == {}
    ensures shown == Sorted(Ahead(m, prefix, None))
  {
    var all := Ahead(m, prefix, None);
    assert all - {} == all;
    SortedIs(shown, all);
  }
}
