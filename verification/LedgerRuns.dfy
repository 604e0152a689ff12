/** Conservation and cap safety over whole runs of the ledger. */
module LedgerRuns {
  import opened Bytes
  import opened Types
  import opened Amounts
  import opened CapKeeper
  import opened Bank
  import opened Ledger
  import Dec

  /** A cap message, a delegation, an undelegation, or anything else that happens
      to the bank and the staking module. */
  datatype Move<T> =
    | SetLimit(contract: Addr, limit: Coin)
    | Delegating(actor: Addr, valAddr: Addr, amt: Coin)
    | Undelegating(actor: Addr, valAddr: Addr, amt: Coin)
    | Outside(bank: Bank<T>)

  ghost function Moved<T>(sdk: Sdk<T>, params: Params, l: Ledger<T>, m: Move<T>): Ledger<T> {
    match m
    case SetLimit(c, limit) =>
      if limit.amount >= 0 && CapDecision(l.records.caps, sdk.bondDenom, params, c, limit).Ok?
      then l.(records := l.records.(caps := l.records.caps[c := limit.amount]))
      else l
    case Delegating(actor, val, amt) => AfterDelegate(sdk, l, actor, val, amt)
    case Undelegating(actor, val, amt) => AfterUndelegate(sdk, l, actor, val, amt)
    case Outside(bank) => l.(bank := bank)
  }

  ghost function After<T>(sdk: Sdk<T>, params: Params, l: Ledger<T>, ms: seq<Move<T>>): Ledger<T> {
    if ms == [] then l else Moved(sdk, params, After(sdk, params, l, ms[..|ms| - 1]), ms[|ms| - 1])
  }

  /** The keeper operations do what the moves say. */
  method Execute<T>(ctx: Context<Bank<T>>, sdk: Sdk<T>, m: Move<T>)
    requires Sound(ctx.store) && !m.Outside?
    modifies ctx`store, ctx`mem, ctx`app
    ensures Sound(ctx.store)
    ensures LedgerOf(ctx) == Moved(sdk, ctx.params, old(LedgerOf(ctx)), m)
  {
    match m
    case SetLimit(c, limit) => ExecuteLimit(ctx, sdk, c, limit);
    case Delegating(actor, val, amt) => var _ := Delegate(ctx, sdk, actor, val, amt);
    case Undelegating(actor, val, amt) => var _ := Undelegate(ctx, sdk, actor, val, amt);
  }

  method ExecuteLimit<T>(ctx: Context<Bank<T>>, sdk: Sdk<T>, c: Addr, limit: Coin)
    requires Sound(ctx.store)
    modifies ctx`store
    ensures Sound(ctx.store)
    ensures LedgerOf(ctx) == Moved(sdk, ctx.params, old(LedgerOf(ctx)), SetLimit(c, limit))
  {
    if limit.amount >= 0 {
      var _ := SetMaxCapLimit(ctx, sdk.bondDenom, c, limit);
    }
  }

  // ----------------------------------------------------------- conservation

  /** The staking module neither makes nor destroys coins. */
  ghost predicate StakingKeepsSupply<T(!new)>(sdk: Sdk<T>) {
    && (forall b, actor, val, n :: SameSupply(sdk.delegate(b, actor, val, n).0, b))
    && (forall b, actor, val, shares :: SameSupply(sdk.unbond(b, actor, val, shares).0, b))
  }

  predicate SameSupply<T>(a: Bank<T>, b: Bank<T>) {
    a.supply == b.supply && a.offset == b.offset
  }

  /** No record is negative. */
  ghost predicate NonNegative(t: AmountTable) {
    forall c | c in t :: t[c] >= 0
  }

  lemma BooksNonNegative(t: AmountTable, c: Addr, n: int)
    requires NonNegative(t)
    ensures DelegatedTotal(t, c) == Amount(t, c)
    ensures n >= 0 ==> NonNegative(t[c := n])
    ensures Sum(t[c := n]) == Sum(t) - DelegatedTotal(t, c) + n
  {
    SumUpdate(t, c, n);
  }

  /** From `l` to `l'` the recorded totals, the supply and its offset have moved
      together, apart from coins made by others. */
  ghost predicate Conserved<T>(sdk: Sdk<T>, l: Ledger<T>, l': Ledger<T>, outside: int) {
    && NonNegative(l'.records.delegated)
    && Sum(l'.records.delegated) - Sum(l.records.delegated) == l'.bank.supply - l.bank.supply - outside
    && (sdk.supportsOffset ==> l'.bank.supply + l'.bank.offset == l.bank.supply + l.bank.offset + outside)
    && (!sdk.supportsOffset ==> l'.bank.offset == l.bank.offset)
  }

  lemma StakedSupply<T(!new)>(sdk: Sdk<T>, b: Bank<T>, actor: Addr, val: Addr, n: nat)
    requires StakingKeepsSupply(sdk)
    ensures var s := StakeCoins(sdk, b, actor, val, n);
            s.Staked? ==> SameSupply(s.bank, AddSupplyOffset(sdk, b.(supply := b.supply + n), 0 - n))
  {
    var issued := IssueCoins(sdk, b, actor, n);
    if issued.Ok? {
      NetOfIssuing(sdk, b, actor, n);
      assert SameSupply(sdk.delegate(issued.value, actor, val, n).0, issued.value);
    }
  }

  /** Booking a total for which the supply has moved by the difference. */
  lemma BookedConserves<T>(sdk: Sdk<T>, l: Ledger<T>, actor: Addr, n: nat, bank: Bank<T>)
    requires NonNegative(l.records.delegated)
    requires var more := n - DelegatedTotal(l.records.delegated, actor);
             SameSupply(bank, AddSupplyOffset(sdk, l.bank.(supply := l.bank.supply + more), 0 - more))
    ensures Conserved(sdk, l, Booked(l, actor, n, bank), 0)
  {
    BooksNonNegative(l.records.delegated, actor, n);
  }

  /** A delegation issues exactly what it records, whether or not the staking
      module accepts the coins. */
  lemma DelegateConserves<T(!new)>(sdk: Sdk<T>, l: Ledger<T>, actor: Addr, val: Addr, amt: Coin)
    requires StakingKeepsSupply(sdk) && NonNegative(l.records.delegated)
    ensures Conserved(sdk, l, AfterDelegate(sdk, l, actor, val, amt), 0)
  {
    var s := Stake(sdk, l, actor, val, amt);
    if s.Staked? {
      var total := DelegatedTotal(l.records.delegated, actor) + amt.amount;
      assert AfterDelegate(sdk, l, actor, val, amt) == Booked(l, actor, total, s.bank);
      StakedSupply(sdk, l.bank, actor, val, amt.amount);
      BookedConserves(sdk, l, actor, total, s.bank);
    } else {
      assert AfterDelegate(sdk, l, actor, val, amt) == l;
    }
  }

  /** An undelegation destroys exactly what it takes off the record, and never
      more than the record holds. */
  lemma UndelegateConserves<T(!new)>(sdk: Sdk<T>, l: Ledger<T>, actor: Addr, val: Addr, amt: Coin)
    requires StakingKeepsSupply(sdk) && NonNegative(l.records.delegated)
    ensures Conserved(sdk, l, AfterUndelegate(sdk, l, actor, val, amt), 0)
  {
    var total := DelegatedTotal(l.records.delegated, actor);
    var u := Unstake(sdk, l, actor, val, amt);
    if u.Unstaked? {
      UnstakedSupply(sdk, l.bank, actor, val, amt.amount, total);
      BookedConserves(sdk, l, actor, total - u.amount, u.bank);
    }
  }

  lemma UnstakedSupply<T(!new)>(sdk: Sdk<T>, b: Bank<T>, actor: Addr, val: Addr, n: nat, total: nat)
    requires StakingKeepsSupply(sdk)
    ensures var u := UnstakeCoins(sdk, b, actor, val, n, total);
            u.Unstaked? ==> SameSupply(u.bank, AddSupplyOffset(sdk, b.(supply := b.supply - u.amount), u.amount))
  {
    var check := ValidateUnbondAmount(sdk, b, actor, val, n);
    if check.Shares? && sdk.isBonded(b.staking, val).Some? {
      var unbonded := sdk.unbond(b, actor, val, check.shares);
      assert SameSupply(unbonded.0, b);
      if unbonded.1.Ok? && unbonded.1.value >= 0 {
        NetOfUnstaking(sdk, b, unbonded.0, sdk.isBonded(b.staking, val).value, actor, unbonded.1.value);
      }
    }
  }

  /** Coins made by others during a run; nobody else moves the offset. */
  ghost function MintedOutside<T>(sdk: Sdk<T>, params: Params, l: Ledger<T>, ms: seq<Move<T>>): int {
    if ms == [] then 0
    else
      var init, last := ms[..|ms| - 1], ms[|ms| - 1];
      MintedOutside(sdk, params, l, init)
      + if last.Outside? then last.bank.supply - After(sdk, params, l, init).bank.supply else 0
  }

  ghost predicate OffsetIsOurs<T>(sdk: Sdk<T>, params: Params, l: Ledger<T>, ms: seq<Move<T>>) {
    forall i | 0 <= i < |ms| && ms[i].Outside? :: ms[i].bank.offset == After(sdk, params, l, ms[..i]).bank.offset
  }

  lemma OffsetWasOurs<T>(sdk: Sdk<T>, params: Params, l: Ledger<T>, ms: seq<Move<T>>)
    requires ms != [] && OffsetIsOurs(sdk, params, l, ms)
    ensures OffsetIsOurs(sdk, params, l, ms[..|ms| - 1])
    ensures ms[|ms| - 1].Outside? ==> ms[|ms| - 1].bank.offset == After(sdk, params, l, ms[..|ms| - 1]).bank.offset
  {
    var init := ms[..|ms| - 1];
    forall i | 0 <= i < |init| && init[i].Outside?
      ensures init[i].bank.offset == After(sdk, params, l, init[..i]).bank.offset
    {
      assert init[..i] == ms[..i];
    }
  }

  lemma MoveConserves<T(!new)>(sdk: Sdk<T>, params: Params, l: Ledger<T>, m: Move<T>)
    requires StakingKeepsSupply(sdk) && NonNegative(l.records.delegated)
    requires m.Outside? ==> m.bank.offset == l.bank.offset
    ensures Conserved(sdk, l, Moved(sdk, params, l, m), if m.Outside? then m.bank.supply - l.bank.supply else 0)
  {
    match m
    case SetLimit(_, _) =>
    case Outside(_) =>
    case Delegating(actor, val, amt) => DelegateConserves(sdk, l, actor, val, amt);
    case Undelegating(actor, val, amt) => UndelegateConserves(sdk, l, actor, val, amt);
  }

  /** Over any run the supply and its offset move only with coins made by others,
      and the recorded totals grow and shrink with the offset. */
  lemma {:induction false} RunConserves<T(!new)>(sdk: Sdk<T>, params: Params, l: Ledger<T>, ms: seq<Move<T>>)
    requires StakingKeepsSupply(sdk) && NonNegative(l.records.delegated)
    requires OffsetIsOurs(sdk, params, l, ms)
    ensures Conserved(sdk, l, After(sdk, params, l, ms), MintedOutside(sdk, params, l, ms))
  {
    if ms != [] {
      var init := ms[..|ms| - 1];
      OffsetWasOurs(sdk, params, l, ms);
      RunConserves(sdk, params, l, init);
      MoveConserves(sdk, params, After(sdk, params, l, init), ms[|ms| - 1]);
    }
  }

  /** From an empty ledger: the records add up to the negated offset. */
  lemma RecordsAreTheOffset<T(!new)>(sdk: Sdk<T>, params: Params, l: Ledger<T>, ms: seq<Move<T>>)
    requires StakingKeepsSupply(sdk) && sdk.supportsOffset
    requires l.records.delegated == map[] && l.bank.offset == 0
    requires OffsetIsOurs(sdk, params, l, ms)
    ensures var l' := After(sdk, params, l, ms); Sum(l'.records.delegated) == 0 - l'.bank.offset
  {
    RunConserves(sdk, params, l, ms);
  }

  // ------------------------------------------------------ every coin is kept

  /** Every coin of the supply is in an account or a pool. */
  predicate Balanced<T>(b: Bank<T>) {
    b.supply == b.own + |b.accounts| + b.bonded + b.notBonded
  }

  /** The staking module moves coins between accounts and pools only. */
  ghost predicate StakingBalances<T(!new)>(sdk: Sdk<T>) {
    && (forall b, actor, val, n :: Balanced(b) ==> Balanced(sdk.delegate(b, actor, val, n).0))
    && (forall b, actor, val, shares :: Balanced(b) ==> Balanced(sdk.unbond(b, actor, val, shares).0))
  }

  lemma StakeBalances<T(!new)>(sdk: Sdk<T>, b: Bank<T>, actor: Addr, val: Addr, n: nat)
    requires StakingBalances(sdk) && Balanced(b)
    ensures var s := StakeCoins(sdk, b, actor, val, n); s.Staked? ==> Balanced(s.bank)
  {
    var issued := IssueCoins(sdk, b, actor, n);
    if issued.Ok? {
      NetOfIssuing(sdk, b, actor, n);
      assert Balanced(issued.value);
    }
  }

  lemma UnstakeBalances<T(!new)>(sdk: Sdk<T>, b: Bank<T>, actor: Addr, val: Addr, n: nat, total: nat)
    requires StakingBalances(sdk) && Balanced(b)
    ensures var u := UnstakeCoins(sdk, b, actor, val, n, total); u.Unstaked? ==> Balanced(u.bank)
  {
    var check := ValidateUnbondAmount(sdk, b, actor, val, n);
    if check.Shares? && sdk.isBonded(b.staking, val).Some? {
      var unbonded := sdk.unbond(b, actor, val, check.shares);
      assert Balanced(unbonded.0);
      if unbonded.1.Ok? && unbonded.1.value >= 0 {
        NetOfUnstaking(sdk, b, unbonded.0, sdk.isBonded(b.staking, val).value, actor, unbonded.1.value);
      }
    }
  }

  /** Over any run no coin of the supply goes missing. */
  lemma {:induction false} RunBalances<T(!new)>(sdk: Sdk<T>, params: Params, l: Ledger<T>, ms: seq<Move<T>>)
    requires StakingBalances(sdk) && Balanced(l.bank)
    requires forall i | 0 <= i < |ms| && ms[i].Outside? :: Balanced(ms[i].bank)
    ensures Balanced(After(sdk, params, l, ms).bank)
  {
    if ms != [] {
      var init, last := ms[..|ms| - 1], ms[|ms| - 1];
      RunBalances(sdk, params, l, init);
      var before := After(sdk, params, l, init);
      match last
      case SetLimit(_, _) =>
      case Outside(_) =>
      case Delegating(actor, val, amt) =>
        if amt.amount > 0 { StakeBalances(sdk, before.bank, actor, val, amt.amount); }
      case Undelegating(actor, val, amt) =>
        if amt.amount > 0 {
          UnstakeBalances(sdk, before.bank, actor, val, amt.amount, DelegatedTotal(before.records.delegated, actor));
        }
    }
  }

  // -------------------------------------------------------------- cap safety

  /** The limits of all contracts stay within the parameter. */
  ghost predicate WithinTotal(params: Params, caps: AmountTable) {
    Sum(caps) <= params.totalMaxCap.amount
  }

  lemma MoveKeepsTotal<T>(sdk: Sdk<T>, params: Params, l: Ledger<T>, m: Move<T>)
    requires WithinTotal(params, l.records.caps)
    ensures WithinTotal(params, Moved(sdk, params, l, m).records.caps)
  {
  }

  lemma {:induction false} CapsStayWithinTotal<T>(sdk: Sdk<T>, params: Params, l: Ledger<T>, ms: seq<Move<T>>)
    requires WithinTotal(params, l.records.caps)
    ensures WithinTotal(params, After(sdk, params, l, ms).records.caps)
  {
    if ms != [] {
      CapsStayWithinTotal(sdk, params, l, ms[..|ms| - 1]);
      MoveKeepsTotal(sdk, params, After(sdk, params, l, ms[..|ms| - 1]), ms[|ms| - 1]);
    }
  }

  /** The limit of a contract after some moves. */
  ghost function CapAfter<T>(sdk: Sdk<T>, params: Params, l: Ledger<T>, ms: seq<Move<T>>, c: Addr): int {
    Amount(After(sdk, params, l, ms).records.caps, c)
  }

  /** The highest limit a contract has had during a run. */
  ghost function HighestCap<T>(sdk: Sdk<T>, params: Params, l: Ledger<T>, ms: seq<Move<T>>, c: Addr): int {
    var now := CapAfter(sdk, params, l, ms, c);
    if ms == [] then now
    else
      var before := HighestCap(sdk, params, l, ms[..|ms| - 1], c);
      if before < now then now else before
  }

  lemma PrefixOfInit<T>(s: seq<T>, p: seq<T>)
    requires p <= s
    ensures p == s || (s != [] && p <= s[..|s| - 1])
  {
  }

  lemma PrefixOfMore<T>(s: seq<T>, p: seq<T>)
    requires s != [] && p <= s[..|s| - 1]
    ensures p <= s
  {
  }

  /** It is an upper bound of the limits at all times ... */
  lemma {:induction false} HighestIsBound<T>(
    sdk: Sdk<T>, params: Params, l: Ledger<T>, ms: seq<Move<T>>, c: Addr, earlier: seq<Move<T>>)
    requires earlier <= ms
    ensures CapAfter(sdk, params, l, earlier, c) <= HighestCap(sdk, params, l, ms, c)
  {
    PrefixOfInit(ms, earlier);
    if earlier != ms {
      HighestIsBound(sdk, params, l, ms[..|ms| - 1], c, earlier);
    }
  }

  /** ... and is reached at one of them. */
  lemma {:induction false} HighestIsReached<T>(
    sdk: Sdk<T>, params: Params, l: Ledger<T>, ms: seq<Move<T>>, c: Addr) returns (earlier: seq<Move<T>>)
    ensures earlier <= ms && CapAfter(sdk, params, l, earlier, c) == HighestCap(sdk, params, l, ms, c)
  {
    earlier := ms;
    if ms != [] && CapAfter(sdk, params, l, ms, c) != HighestCap(sdk, params, l, ms, c) {
      earlier := HighestIsReached(sdk, params, l, ms[..|ms| - 1], c);
      PrefixOfMore(ms, earlier);
    }
  }

  /** One move keeps a total under its limit exactly when it is not a limit below
      what is already delegated. */
  lemma WithinCapAfter<T>(sdk: Sdk<T>, params: Params, l: Ledger<T>, m: Move<T>, c: Addr)
    requires DelegatedTotal(l.records.delegated, c) <= Amount(l.records.caps, c)
    ensures var l' := Moved(sdk, params, l, m);
            DelegatedTotal(l'.records.delegated, c) <= Amount(l'.records.caps, c) <==>
              !(&& m.SetLimit? && m.contract == c && 0 <= m.limit.amount < DelegatedTotal(l.records.delegated, c)
                && CapDecision(l.records.caps, sdk.bondDenom, params, c, m.limit).Ok?)
  {
  }

  /** A move raises a total only to what the limit allows at that moment. */
  lemma TotalRisesWithinCap<T>(sdk: Sdk<T>, params: Params, l: Ledger<T>, m: Move<T>, c: Addr)
    ensures var l' := Moved(sdk, params, l, m);
            DelegatedTotal(l'.records.delegated, c) > DelegatedTotal(l.records.delegated, c) ==>
              && DelegatedTotal(l'.records.delegated, c) <= Amount(l.records.caps, c)
              && l'.records.caps == l.records.caps
  {
  }

  /** What a contract has delegated never exceeds the highest limit it has had. */
  lemma {:induction false} DelegatedWithinHighestCap<T>(
    sdk: Sdk<T>, params: Params, l: Ledger<T>, ms: seq<Move<T>>, c: Addr)
    requires DelegatedTotal(l.records.delegated, c) <= Amount(l.records.caps, c)
    ensures DelegatedTotal(After(sdk, params, l, ms).records.delegated, c) <= HighestCap(sdk, params, l, ms, c)
  {
    if ms != [] {
      var init := ms[..|ms| - 1];
      DelegatedWithinHighestCap(sdk, params, l, init, c);
      TotalRisesWithinCap(sdk, params, After(sdk, params, l, init), ms[|ms| - 1], c);
    }
  }
}
