/** Cap limits and delegated totals of contracts. */
module CapKeeper {
  import opened Bytes
  import opened Types
  import opened Order
  import opened Keys
  import opened Scheduler
  import opened Amounts
  import Decimal

  // ------------------------------------------------- iterating cap limits

  /** The contracts an iterator over the cap limits has still to show. */
  ghost predicate Left(store: Kv, cursor: Option<Bytes>, left: set<Addr>) {
    forall c :: c in left <==> AmountKey(CAP, c) in Ahead(store, [CAP], cursor)
  }

  lemma LeftStart(store: Kv)
    requires Sound(store)
    ensures Left(store, None, Caps(store).Keys)
  {
    forall c ensures c in Caps(store).Keys <==> AmountKey(CAP, c) in Ahead(store, [CAP], None) {
      AmountsAt(store, CAP, c);
    }
  }

  /** The iterator shows a contract and its stored cap, each contract once. */
  lemma LeftStep(store: Kv, cursor: Option<Bytes>, left: set<Addr>, key: Bytes)
    requires Sound(store) && Left(store, cursor, left)
    requires IsLeast(Ahead(store, [CAP], cursor), key)
    ensures key == AmountKey(CAP, key[1..]) && key[1..] in left
    ensures key[1..] in Caps(store) && Some(Caps(store)[key[1..]]) == Decimal.Parse(store[key])
    ensures Left(store, Some(key), left - {key[1..]})
  {
    var c := key[1..];
    assert key == AmountKey(CAP, c);
    AmountsAt(store, CAP, c);
    AheadAfter(store, [CAP], cursor, key);
    forall d ensures AmountKey(CAP, d) == key <==> d == c { AmountKeyApart(CAP, CAP, c, d); }
  }

  lemma LeftEnd(store: Kv, cursor: Option<Bytes>, left: set<Addr>)
    requires Left(store, cursor, left) && Ahead(store, [CAP], cursor) == {}
    ensures left == {}
  {
  }

  /** Scheduler writes do not disturb the iterator. */
  lemma LeftUndisturbed(store: Kv, store': Kv, cursor: Option<Bytes>, left: set<Addr>)
    requires Left(store, cursor, left) && SameUnder(store, store', CAP)
    ensures Left(store', cursor, left)
  {
  }

  // --------------------------------------------------------------- accessors

  /** A stored integer, zero when absent. */
  function MustLoadInt(store: Kv, key: Bytes): int
    requires key in store ==> Decimal.Parse(store[key]).Some?
  {
    if key !in store then 0 else Decimal.Parse(store[key]).value
  }

  method HasMaxCapLimit<S>(ctx: Context<S>, actor: Addr) returns (r: bool)
    requires Sound(ctx.store)
    ensures r <==> actor in Caps(ctx.store)
  {
    AmountsAt(ctx.store, CAP, actor);
    r := AmountKey(CAP, actor) in ctx.store;
  }

  method GetMaxCapLimit<S>(ctx: Context<S>, bondDenom: string, actor: Addr) returns (r: Coin)
    requires Sound(ctx.store)
    ensures r == Coin(bondDenom, Amount(Caps(ctx.store), actor))
  {
    AmountsAt(ctx.store, CAP, actor);
    r := Coin(bondDenom, MustLoadInt(ctx.store, AmountKey(CAP, actor)));
  }

  /** The delegated total; a negative record counts as zero. */
  function DelegatedTotal(t: AmountTable, actor: Addr): nat {
    if Amount(t, actor) < 0 then 0 else Amount(t, actor)
  }

  method GetTotalDelegated<S>(ctx: Context<S>, bondDenom: string, actor: Addr) returns (r: Coin)
    requires Sound(ctx.store)
    ensures r == Coin(bondDenom, DelegatedTotal(Delegated(ctx.store), actor))
  {
    AmountsAt(ctx.store, DELEGATED, actor);
    var v := MustLoadInt(ctx.store, AmountKey(DELEGATED, actor));
    if v < 0 {
      v := 0;
    }
    r := Coin(bondDenom, v);
  }

  /** The store with a new delegated total; `SetDelegated` says what it holds. */
  function WithTotalDelegated(store: Kv, actor: Addr, n: int): Kv {
    store[AmountKey(DELEGATED, actor) := Decimal.Text(n)]
  }

  /** Record a delegated total; another denomination panics. */
  method SetTotalDelegated<S>(ctx: Context<S>, bondDenom: string, actor: Addr, newAmount: Coin) returns (r: Result<()>)
    modifies ctx`store
    ensures r == if newAmount.denom != bondDenom then Err(Panicked) else Ok(())
    ensures ctx.store == if r.Err? then old(ctx.store) else WithTotalDelegated(old(ctx.store), actor, newAmount.amount)
  {
    if bondDenom != newAmount.denom {
      return Err(Panicked);
    }
    ctx.store := ctx.store[AmountKey(DELEGATED, actor) := Decimal.Text(newAmount.amount)];
    return Ok(());
  }

  /** The caps of the contracts shown so far, one contract left out. */
  function Shown(caps: AmountTable, left: set<Addr>, except: Addr): AmountTable {
    map c | c in caps && c !in left && c != except :: caps[c]
  }

  lemma ShownStep(caps: AmountTable, left: set<Addr>, except: Addr, c: Addr)
    requires c in caps && c in left
    ensures Sum(Shown(caps, left - {c}, except)) ==
            Sum(Shown(caps, left, except)) + if c == except then 0 else caps[c]
  {
    var next := Shown(caps, left - {c}, except);
    if c == except {
      assert next == Shown(caps, left, except);
    } else {
      assert next == Shown(caps, left, except)[c := caps[c]];
      SumUpdate(Shown(caps, left, except), c, caps[c]);
    }
  }

  lemma SumOthersAndNew(t: AmountTable, c: Addr, n: int)
    ensures Sum(t[c := n]) == Sum(t - {c}) + n
  {
    SumOfOthers(t, c);
    SumUpdate(t, c, n);
  }

  /** A limit is accepted when the denomination is right and the limits of all
      contracts, the new one included, stay within the parameter. */
  ghost function CapDecision(
    caps: AmountTable, bondDenom: string, params: Params, contract: Addr, newAmount: Coin): Result<()>
  {
    if newAmount.denom != bondDenom then Err(InvalidCoins)
    else if Sum(caps[contract := newAmount.amount]) > params.totalMaxCap.amount then Err(Invalid)
    else Ok(())
  }

  method StoreCap<S>(ctx: Context<S>, contract: Addr, n: int)
    requires Sound(ctx.store)
    modifies ctx`store
    ensures Sound(ctx.store)
    ensures RecordsOf(ctx.store) == var was := old(RecordsOf(ctx.store)); was.(caps := was.caps[contract := n])
  {
    SetCap(ctx.store, contract, n);
    ctx.store := ctx.store[AmountKey(CAP, contract) := Decimal.Text(n)];
  }

  /** Store a new cap limit for a contract, unless the limits of all contracts
      would then exceed the parameter. */
  method SetMaxCapLimit<S>(ctx: Context<S>, bondDenom: string, contract: Addr, newAmount: Coin) returns (r: Result<()>)
    requires Sound(ctx.store)
    modifies ctx`store
    ensures r == CapDecision(old(RecordsOf(ctx.store)).caps, bondDenom, ctx.params, contract, newAmount)
    ensures r.Ok? <==>
            && newAmount.denom == bondDenom
            && Sum(old(RecordsOf(ctx.store)).caps[contract := newAmount.amount]) <= ctx.params.totalMaxCap.amount
    ensures Sound(ctx.store)
    ensures RecordsOf(ctx.store) ==
            var was := old(RecordsOf(ctx.store));
            if r.Err? then was else was.(caps := was.caps[contract := newAmount.amount])
  {
    if bondDenom != newAmount.denom {
      return Err(InvalidCoins);
    }
    var total := TotalOfOthers(ctx.store, contract);
    SumOthersAndNew(RecordsOf(ctx.store).caps, contract, newAmount.amount);
    if total + newAmount.amount > ctx.params.totalMaxCap.amount {
      return Err(Invalid);
    }
    StoreCap(ctx, contract, newAmount.amount);
    return Ok(());
  }

  lemma ShownAtStart(caps: AmountTable, except: Addr)
    ensures Sum(Shown(caps, caps.Keys, except)) == 0
  {
    assert Shown(caps, caps.Keys, except) == map[];
  }

  lemma ShownAtEnd(caps: AmountTable, left: set<Addr>, except: Addr)
    requires left == {}
    ensures Shown(caps, left, except) == caps - {except}
  {
  }

  /** The loop of `SetMaxCapLimit` over the stored limits. */
  method TotalOfOthers(store: Kv, contract: Addr) returns (total: int)
    requires Sound(store)
    ensures total == Sum(RecordsOf(store).caps - {contract})
  {
    ghost var caps := Caps(store);
    ghost var left, cursor: Option<Bytes> := caps.Keys, None;
    LeftStart(store);
    ShownAtStart(caps, contract);
    total := 0;
    var iter := Seek(store, [CAP], None);
    while iter.Some?
      invariant Left(store, cursor, left)
      invariant iter == Seek(store, [CAP], cursor)
      invariant total == Sum(Shown(caps, left, contract))
      decreases left
    {
      var key := iter.value;
      LeftStep(store, cursor, left, key);
      ShownStep(caps, left, contract, key[1..]);
      if key[1..] != contract {
        total := total + MustLoadInt(store, key);
      }
      left, cursor := left - {key[1..]}, Some(key);
      iter := Seek(store, [CAP], Some(key));
    }
    LeftEnd(store, cursor, left);
    ShownAtEnd(caps, left, contract);
  }
}
