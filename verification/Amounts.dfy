/** The per-contract amounts in the store, cap limits and delegated totals, and
    sums over them. */
module Amounts {
  import opened Bytes
  import opened Types
  import opened Order
  import opened Keys
  import opened Scheduler
  import Decimal

  type AmountTable = map<Addr, int>

  /** Every stored amount is the text of an integer. */
  predicate Readable(store: Kv, p: byte) {
    forall k | k in store && [p] <= k :: Decimal.Parse(store[k]).Some?
  }

  function Contracts(store: Kv, p: byte): set<Addr> {
    set k | k in store && [p] <= k :: k[1..]
  }

  lemma InContracts(store: Kv, p: byte, c: Addr)
    ensures c in Contracts(store, p) <==> AmountKey(p, c) in store
  {
    if c in Contracts(store, p) {
      var k :| k in store && [p] <= k && k[1..] == c;
      assert k == AmountKey(p, c);
    }
    if AmountKey(p, c) in store {
      assert AmountKey(p, c)[1..] == c;
    }
  }

  /** `t` is what the store says about the amounts under a prefix. */
  ghost predicate IsAmounts(store: Kv, p: byte, t: AmountTable) {
    && (forall c {:trigger AmountKey(p, c)} :: c in t <==> AmountKey(p, c) in store)
    && (forall c {:trigger AmountKey(p, c)} | c in t :: Decimal.Parse(store[AmountKey(p, c)]) == Some(t[c]))
  }

  lemma AmountsExist(store: Kv, p: byte)
    requires Readable(store, p)
    ensures exists t :: IsAmounts(store, p, t)
  {
    forall c ensures c in Contracts(store, p) <==> AmountKey(p, c) in store { InContracts(store, p, c); }
    assert IsAmounts(store, p, map c | c in Contracts(store, p) :: Decimal.Parse(store[AmountKey(p, c)]).value);
  }

  /** The amounts stored under a prefix. */
  ghost function Amounts(store: Kv, p: byte): AmountTable
    requires Readable(store, p)
  {
    AmountsExist(store, p);
    var t :| IsAmounts(store, p, t);
    t
  }

  lemma AmountsAt(store: Kv, p: byte, c: Addr)
    requires Readable(store, p)
    ensures c in Amounts(store, p) <==> AmountKey(p, c) in store
    ensures c in Amounts(store, p) ==> Some(Amounts(store, p)[c]) == Decimal.Parse(store[AmountKey(p, c)])
  {
    InContracts(store, p, c);
  }

  /** An absent amount counts as zero. */
  function Amount(t: AmountTable, c: Addr): int {
    if c in t then t[c] else 0
  }

  /** The whole store as the module keeps it. */
  predicate Sound(store: Kv) {
    WellFormed(store) && Readable(store, CAP) && Readable(store, DELEGATED)
  }

  ghost function Caps(store: Kv): AmountTable
    requires Sound(store)
  {
    Amounts(store, CAP)
  }

  ghost function Delegated(store: Kv): AmountTable
    requires Sound(store)
  {
    Amounts(store, DELEGATED)
  }

  /** Everything the module keeps in its store, as plain tables. */
  datatype Records = Records(tasks: Table, caps: AmountTable, delegated: AmountTable)

  ghost function RecordsOf(store: Kv): Records
    requires Sound(store)
  {
    Records(Tasks(store), Caps(store), Delegated(store))
  }

  lemma AmountKeyApart(p: byte, q: byte, c: Addr, d: Addr)
    ensures AmountKey(p, c) == AmountKey(q, d) <==> p == q && c == d
    ensures p != 0x4 ==> !IsTaskKey(AmountKey(p, c))
  {
    assert AmountKey(p, c)[0] == p && AmountKey(q, d)[0] == q;
    assert AmountKey(p, c)[1..] == c && AmountKey(q, d)[1..] == d;
  }

  lemma AmountsAre(store: Kv, p: byte, t: AmountTable)
    requires Readable(store, p)
    requires forall c :: c in t <==> AmountKey(p, c) in store
    requires forall c | c in t :: Decimal.Parse(store[AmountKey(p, c)]) == Some(t[c])
    ensures Amounts(store, p) == t
  {
    var s := Amounts(store, p);
    forall c ensures c in s <==> c in t
             ensures c in t ==> s[c] == t[c]
    {
      AmountsAt(store, p, c);
    }
  }

  /** The same entries under a prefix. */
  predicate SameUnder(store: Kv, store': Kv, p: byte) {
    && (forall k | k in store && [p] <= k :: k in store' && store'[k] == store[k])
    && (forall k | k in store' && [p] <= k :: k in store)
  }

  lemma SameAmounts(store: Kv, store': Kv, p: byte)
    requires Readable(store, p) && SameUnder(store, store', p)
    ensures Readable(store', p) && Amounts(store', p) == Amounts(store, p)
  {
    var t := Amounts(store, p);
    forall c ensures c in t <==> AmountKey(p, c) in store'
             ensures c in t ==> Decimal.Parse(store'[AmountKey(p, c)]) == Some(t[c])
    {
      AmountsAt(store, p, c);
      assert [p] <= AmountKey(p, c);
    }
    AmountsAre(store', p, t);
  }

  lemma SetOne(store: Kv, p: byte, c: Addr, n: int)
    requires Readable(store, p)
    ensures var s := store[AmountKey(p, c) := Decimal.Text(n)];
            Readable(s, p) && Amounts(s, p) == Amounts(store, p)[c := n]
  {
    var s := store[AmountKey(p, c) := Decimal.Text(n)];
    var t := Amounts(store, p)[c := n];
    Decimal.TextRoundTrip(n);
    forall d ensures d in t <==> AmountKey(p, d) in s
             ensures d in t ==> Decimal.Parse(s[AmountKey(p, d)]) == Some(t[d])
    {
      AmountsAt(store, p, d);
      AmountKeyApart(p, p, c, d);
    }
    AmountsAre(s, p, t);
  }

  lemma SetKeepsTasks(store: Kv, p: byte, c: Addr, v: Bytes)
    requires WellFormed(store) && p != 0x4
    ensures var s := store[AmountKey(p, c) := v]; WellFormed(s) && Tasks(s) == Tasks(store)
  {
    var s := store[AmountKey(p, c) := v];
    AmountKeyApart(p, p, c, c);
    assert AmountKey(p, c)[0] == p;
    var t := Tasks(store);
    forall x ensures x in t <==> TaskKey(x) in s
             ensures x in t ==> t[x] == IsRepeat(s[TaskKey(x)])
    {
      TasksAt(store, x);
      TaskKeyRoundTrip(x);
    }
    TasksAre(s, t);
  }

  lemma SetApart(store: Kv, p: byte, q: byte, c: Addr, v: Bytes)
    requires p != q
    ensures SameUnder(store, store[AmountKey(p, c) := v], q)
  {
    assert AmountKey(p, c)[0] == p;
  }

  /** Writing a cap changes that cap and nothing else. */
  lemma SetCap(store: Kv, c: Addr, n: int)
    requires Sound(store)
    ensures var s := store[AmountKey(CAP, c) := Decimal.Text(n)];
            Sound(s) && RecordsOf(s) == RecordsOf(store).(caps := Caps(store)[c := n])
  {
    SetKeepsTasks(store, CAP, c, Decimal.Text(n));
    SetOne(store, CAP, c, n);
    SetApart(store, CAP, DELEGATED, c, Decimal.Text(n));
    SameAmounts(store, store[AmountKey(CAP, c) := Decimal.Text(n)], DELEGATED);
  }

  /** Writing a delegated total changes that total and nothing else. */
  lemma SetDelegated(store: Kv, c: Addr, n: int)
    requires Sound(store)
    ensures var s := store[AmountKey(DELEGATED, c) := Decimal.Text(n)];
            Sound(s) && RecordsOf(s) == RecordsOf(store).(delegated := RecordsOf(store).delegated[c := n])
  {
    SetKeepsTasks(store, DELEGATED, c, Decimal.Text(n));
    SetOne(store, DELEGATED, c, n);
    SetApart(store, DELEGATED, CAP, c, Decimal.Text(n));
    SameAmounts(store, store[AmountKey(DELEGATED, c) := Decimal.Text(n)], CAP);
  }

  lemma OthersUnder(store: Kv, store': Kv, p: byte)
    requires Others(store') == Others(store) && p != 0x4
    ensures SameUnder(store, store', p)
  {
    forall k | [p] <= k
      ensures k in store <==> k in store'
      ensures k in store ==> store'[k] == store[k]
    {
      assert !IsTaskKey(k);
      assert k in Others(store) <==> k in store;
      assert k in Others(store') <==> k in store';
    }
  }

  /** Scheduler writes leave amounts alone. */
  lemma TasksApartFromAmounts(store: Kv, store': Kv)
    requires Sound(store) && WellFormed(store') && Others(store') == Others(store)
    ensures Sound(store') && RecordsOf(store') == RecordsOf(store).(tasks := Tasks(store'))
    ensures SameUnder(store, store', CAP)
  {
    OthersUnder(store, store', CAP);
    OthersUnder(store, store', DELEGATED);
    SameAmounts(store, store', CAP);
    SameAmounts(store, store', DELEGATED);
  }

  // --------------------------------------------------- all totals at once

  /** The amounts stored under a prefix, read out. */
  method LoadAmounts(store: Kv, p: byte) returns (t: AmountTable)
    requires Readable(store, p)
    ensures t == Amounts(store, p)
  {
    forall c ensures c in Contracts(store, p) <==> AmountKey(p, c) in store { InContracts(store, p, c); }
    t := map c | c in Contracts(store, p) :: Decimal.Parse(store[AmountKey(p, c)]).value;
    AmountsAre(store, p, t);
  }

  predicate IsTotalKey(k: Bytes) {
    k != [] && k[0] == DELEGATED
  }

  /** What the store says about anything but tasks and delegated totals. */
  function Rest(store: Kv): Kv {
    var others := Others(store);
    map k | k in others && !IsTotalKey(k) :: others[k]
  }

  function TotalKeys(t: AmountTable): set<Bytes> {
    set c | c in t :: AmountKey(DELEGATED, c)
  }

  lemma InTotalKeys(t: AmountTable, k: Bytes)
    ensures k in TotalKeys(t) <==> IsTotalKey(k) && k[1..] in t
  {
    if IsTotalKey(k) { assert k == AmountKey(DELEGATED, k[1..]); }
    if k in TotalKeys(t) {
      var c :| c in t && AmountKey(DELEGATED, c) == k;
      assert k[1..] == c;
    }
  }

  /** The store with these delegated totals. */
  function WithTotals(store: Kv, t: AmountTable): Kv {
    assert forall k | k in TotalKeys(t) :: IsTotalKey(k) && k[1..] in t by {
      forall k | k in TotalKeys(t) ensures IsTotalKey(k) && k[1..] in t { InTotalKeys(t, k); }
    }
    (map k | k in store && !IsTotalKey(k) :: store[k])
    + (map k | k in TotalKeys(t) :: Decimal.Text(t[k[1..]]))
  }

  lemma WithTotalsAt(store: Kv, t: AmountTable, k: Bytes)
    ensures var s := WithTotals(store, t);
            if IsTotalKey(k) then (k in s <==> k[1..] in t) && (k in s ==> s[k] == Decimal.Text(t[k[1..]]))
            else (k in s <==> k in store) && (k in s ==> s[k] == store[k])
  {
    InTotalKeys(t, k);
  }

  lemma TotalsHold(store: Kv, t: AmountTable)
    ensures var s := WithTotals(store, t); Readable(s, DELEGATED) && Amounts(s, DELEGATED) == t
  {
    var s := WithTotals(store, t);
    forall k | k in s && IsTotalKey(k) ensures Decimal.Parse(s[k]).Some? {
      WithTotalsAt(store, t, k);
      Decimal.TextRoundTrip(t[k[1..]]);
    }
    forall c ensures c in t <==> AmountKey(DELEGATED, c) in s
             ensures c in t ==> Decimal.Parse(s[AmountKey(DELEGATED, c)]) == Some(t[c])
    {
      WithTotalsAt(store, t, AmountKey(DELEGATED, c));
      assert AmountKey(DELEGATED, c)[1..] == c;
      if c in t { Decimal.TextRoundTrip(t[c]); }
    }
    AmountsAre(s, DELEGATED, t);
  }

  /** The same entries, delegated totals aside. */
  predicate SameButTotals(store: Kv, store': Kv) {
    && (forall k | k in store && !IsTotalKey(k) :: k in store' && store'[k] == store[k])
    && (forall k | k in store' && !IsTotalKey(k) :: k in store)
  }

  lemma TotalsKeepTasks(store: Kv, store': Kv)
    requires WellFormed(store) && SameButTotals(store, store')
    ensures WellFormed(store') && Tasks(store') == Tasks(store)
  {
    forall k | k in store' && SCHEDULER_PREFIX <= k ensures IsTaskKey(k) {
      assert k[0] == SCHEDULER_PREFIX[0];
    }
    forall x ensures x in Tasks(store) <==> TaskKey(x) in store'
             ensures x in Tasks(store) ==> Tasks(store)[x] == IsRepeat(store'[TaskKey(x)])
    {
      TasksAt(store, x);
      assert !IsTotalKey(TaskKey(x));
    }
    TasksAre(store', Tasks(store));
  }

  lemma TotalsKeepCaps(store: Kv, store': Kv)
    requires SameButTotals(store, store')
    ensures SameUnder(store, store', CAP)
  {
    forall k | [CAP] <= k ensures !IsTotalKey(k) { assert k[0] == CAP; }
  }

  lemma TotalsKeepRest(store: Kv, store': Kv)
    requires SameButTotals(store, store')
    ensures Rest(store') == Rest(store)
  {
    forall k ensures k in Rest(store) <==> k in Rest(store') {
      assert k in Rest(store) ==> !IsTotalKey(k);
      assert k in Rest(store') ==> !IsTotalKey(k);
    }
  }

  /** Writing delegated totals changes the totals and nothing else. */
  lemma TotalsWritten(store: Kv, t: AmountTable)
    requires Sound(store)
    ensures var s := WithTotals(store, t);
            Sound(s) && RecordsOf(s) == RecordsOf(store).(delegated := t) && Rest(s) == Rest(store)
  {
    var s := WithTotals(store, t);
    assert SameButTotals(store, s) by {
      forall k | !IsTotalKey(k) ensures k in s <==> k in store
                                ensures k in s ==> s[k] == store[k]
      {
        WithTotalsAt(store, t, k);
      }
    }
    TotalsHold(store, t);
    TotalsKeepTasks(store, s);
    TotalsKeepCaps(store, s);
    TotalsKeepRest(store, s);
    SameAmounts(store, s, CAP);
  }

  // ------------------------------------------------------------------ sums

  /** The sum of the amounts, taken in key order. */
  ghost function Sum(t: AmountTable): int {
    SumOver(t, Sorted(t.Keys))
  }

  ghost function SumOver(t: AmountTable, cs: seq<Addr>): int
    requires forall c | c in cs :: c in t
  {
    if cs == [] then 0 else t[cs[0]] + SumOver(t, cs[1..])
  }

  lemma {:induction false} SumOverSame(t: AmountTable, u: AmountTable, cs: seq<Addr>)
    requires forall c | c in cs :: c in t && c in u && t[c] == u[c]
    ensures SumOver(t, cs) == SumOver(u, cs)
  {
    if cs != [] { SumOverSame(t, u, cs[1..]); }
  }

  lemma {:induction false} SumOverSplit(t: AmountTable, cs: seq<Addr>, i: nat)
    requires i < |cs| && forall c | c in cs :: c in t
    ensures SumOver(t, cs) == t[cs[i]] + SumOver(t, cs[..i] + cs[i + 1..])
  {
    var rest := cs[..i] + cs[i + 1..];
    if i == 0 {
      assert rest == cs[1..];
    } else {
      SumOverSplit(t, cs[1..], i - 1);
      assert rest[1..] == cs[1..][..i - 1] + cs[1..][i..];
    }
  }

  /** One amount can be taken out of a sum. */
  lemma SumWithout(t: AmountTable, c: Addr)
    requires c in t
    ensures Sum(t) == t[c] + Sum(t - {c})
  {
    var cs := Sorted(t.Keys);
    var i :| 0 <= i < |cs| && cs[i] == c;
    var rest := cs[..i] + cs[i + 1..];
    SumOverSplit(t, cs, i);
    ListsWithout(cs, t.Keys, i);
    assert (t - {c}).Keys == t.Keys - {c};
    SortedIs(rest, (t - {c}).Keys);
    SumOverSame(t, t - {c}, rest);
  }

  lemma PutThenDrop(t: AmountTable, c: Addr, n: int)
    ensures t[c := n] - {c} == t - {c}
  {
  }

  lemma DropAbsent(t: AmountTable, c: Addr)
    requires c !in t
    ensures t - {c} == t
  {
  }

  lemma SumOfOthers(t: AmountTable, c: Addr)
    ensures Sum(t - {c}) == Sum(t) - Amount(t, c)
  {
    if c in t {
      SumWithout(t, c);
    } else {
      DropAbsent(t, c);
    }
  }

  lemma SumUpdate(t: AmountTable, c: Addr, n: int)
    ensures Sum(t[c := n]) == Sum(t) - Amount(t, c) + n
  {
    SumOfOthers(t[c := n], c);
    SumOfOthers(t, c);
    PutThenDrop(t, c, n);
  }
}
