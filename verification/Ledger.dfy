/** Virtual stake: minting and delegating, undelegating and burning. */
module Ledger {
  import opened Bytes
  import opened Types
  import opened Amounts
  import opened CapKeeper
  import opened Bank
  import Dec

  /** The records of the module next to the bank. */
  datatype Ledger<T> = Ledger(records: Records, bank: Bank<T>)

  ghost function LedgerOf<T>(ctx: Context<Bank<T>>): Ledger<T>
    requires Sound(ctx.store)
    reads ctx
  {
    Ledger(RecordsOf(ctx.store), ctx.app)
  }

  // ------------------------------------------------------------- delegating

  /** Mint coins, take them out of the official supply, hand them to the actor. */
  function IssueCoins<T>(sdk: Sdk<T>, b: Bank<T>, actor: Addr, n: nat): Result<Bank<T>> {
    var minted := MintCoins(sdk, b, n);
    if minted.Err? then minted else SendToAccount(sdk, AddSupplyOffset(sdk, minted.value, 0 - n), actor, n)
  }

  /** The net effect: new virtual coins in the hands of the actor. */
  lemma NetOfIssuing<T>(sdk: Sdk<T>, b: Bank<T>, actor: Addr, n: nat)
    ensures var r := IssueCoins(sdk, b, actor, n);
            r.Ok? ==> r.value == AddSupplyOffset(sdk, b, 0 - n)
                                 .(supply := b.supply + n,
                                   accounts := b.accounts[actor := b.accounts[actor] + n])
  {
  }

  /** What a delegation does: nothing but an error, or a change of the bank and
      the answer of the staking module. Once the coins are issued they stay,
      whether or not the staking module accepts them. */
  datatype Staking<T> = Rejected(error: Error) | Staked(bank: Bank<T>, result: Result<Dec.Raw>)

  /** The checks before any coin is made. */
  function MayDelegate<T>(sdk: Sdk<T>, l: Ledger<T>, actor: Addr, valAddr: Addr, amt: Coin): Result<nat> {
    if amt.amount <= 0 || amt.denom != sdk.bondDenom then Err(InvalidRequest)
    else if sdk.isBonded(l.bank.staking, valAddr).None? then Err(NoValidatorFound)
    else if DelegatedTotal(l.records.delegated, actor) + amt.amount > Amount(l.records.caps, actor)
    then Err(MaxCapExceeded)
    else Ok(amt.amount)
  }

  function Stake<T>(sdk: Sdk<T>, l: Ledger<T>, actor: Addr, valAddr: Addr, amt: Coin): Staking<T> {
    var n := MayDelegate(sdk, l, actor, valAddr, amt);
    if n.Err? then Rejected(n.error)
    else StakeCoins(sdk, l.bank, actor, valAddr, n.value)
  }

  function StakeCoins<T>(sdk: Sdk<T>, b: Bank<T>, actor: Addr, valAddr: Addr, n: nat): Staking<T> {
    var issued := IssueCoins(sdk, b, actor, n);
    if issued.Err? then Rejected(issued.error)
    else
      var (bank, result) := sdk.delegate(issued.value, actor, valAddr, n);
      Staked(bank, result)
  }

  function AfterDelegate<T>(sdk: Sdk<T>, l: Ledger<T>, actor: Addr, valAddr: Addr, amt: Coin): Ledger<T> {
    match Stake(sdk, l, actor, valAddr, amt)
    case Rejected(_) => l
    case Staked(bank, _) => Booked(l, actor, DelegatedTotal(l.records.delegated, actor) + amt.amount, bank)
  }

  /** What `Delegate` answers. */
  function DelegateResult<T>(sdk: Sdk<T>, l: Ledger<T>, actor: Addr, valAddr: Addr, amt: Coin): Result<Dec.Raw> {
    match Stake(sdk, l, actor, valAddr, amt)
    case Rejected(e) => Err(e)
    case Staked(_, result) => result
  }

  /** A check failed, or the bank refused to issue the coins. */
  predicate NothingIssued<T>(sdk: Sdk<T>, l: Ledger<T>, actor: Addr, valAddr: Addr, amt: Coin) {
    var n := MayDelegate(sdk, l, actor, valAddr, amt);
    n.Err? || IssueCoins(sdk, l.bank, actor, n.value).Err?
  }

  /** A failed delegation leaves the ledger as it was if and only if no coins
      were issued: coins that the staking module refuses stay on record. */
  lemma FailedDelegation<T>(sdk: Sdk<T>, l: Ledger<T>, actor: Addr, valAddr: Addr, amt: Coin)
    requires DelegateResult(sdk, l, actor, valAddr, amt).Err?
    ensures AfterDelegate(sdk, l, actor, valAddr, amt) == l <==> NothingIssued(sdk, l, actor, valAddr, amt)
  {
    if !NothingIssued(sdk, l, actor, valAddr, amt) {
      var total := DelegatedTotal(l.records.delegated, actor) + amt.amount;
      assert AfterDelegate(sdk, l, actor, valAddr, amt).records.delegated == l.records.delegated[actor := total];
      assert actor in l.records.delegated ==> l.records.delegated[actor] != total;
    }
  }

  /** The ledger with a new record and a new bank. */
  function Booked<T>(l: Ledger<T>, actor: Addr, n: int, bank: Bank<T>): Ledger<T> {
    Ledger(l.records.(delegated := l.records.delegated[actor := n]), bank)
  }

  /** Delegating asks the staking module, with the coins issued, to delegate the
      amount from the actor to the validator; bank and answer are its own, and the
      record rises by the amount. This happens when the amount is a positive one in
      the staking denomination, the validator is known, the total stays within the
      cap and the bank refuses neither minting nor paying. Otherwise nothing
      changes, and the error is the first of these. */
  lemma DelegateMeans<T>(sdk: Sdk<T>, l: Ledger<T>, actor: Addr, valAddr: Addr, amt: Coin)
    ensures var b, n := l.bank, amt.amount;
            var recorded := Amount(l.records.delegated, actor);
            var total := (if recorded < 0 then 0 else recorded) + n;
            var result := DelegateResult(sdk, l, actor, valAddr, amt);
            var after := AfterDelegate(sdk, l, actor, valAddr, amt);
            if n <= 0 || amt.denom != sdk.bondDenom then result == Err(InvalidRequest) && after == l
            else if sdk.isBonded(b.staking, valAddr).None? then result == Err(NoValidatorFound) && after == l
            else if total > Amount(l.records.caps, actor) then result == Err(MaxCapExceeded) && after == l
            else
              var minting := sdk.refuses(b, Mint(n));
              var minted := b.(supply := b.supply + n, own := b.own + n,
                               offset := if sdk.supportsOffset then b.offset - n else b.offset);
              var paying := sdk.refuses(minted, Pay(actor, n));
              if minting.Some? then result == Err(minting.value) && after == l
              else if paying.Some? then result == Err(paying.value) && after == l
              else
                var funded := b.(supply := b.supply + n,
                                 offset := if sdk.supportsOffset then b.offset - n else b.offset,
                                 accounts := b.accounts[actor := b.accounts[actor] + n]);
                && (after.bank, result) == sdk.delegate(funded, actor, valAddr, n)
                && after.records == l.records.(delegated := l.records.delegated[actor := total])
  {
    if MayDelegate(sdk, l, actor, valAddr, amt).Ok? {
      NetOfIssuing(sdk, l.bank, actor, amt.amount);
    }
  }

  method CheckDelegate<T>(ctx: Context<Bank<T>>, sdk: Sdk<T>, actor: Addr, valAddr: Addr, amt: Coin)
    returns (r: Result<nat>, newTotal: Coin)
    requires Sound(ctx.store)
    ensures r == MayDelegate(sdk, LedgerOf(ctx), actor, valAddr, amt)
    ensures newTotal == Coin(sdk.bondDenom, DelegatedTotal(LedgerOf(ctx).records.delegated, actor) + amt.amount)
  {
    newTotal := GetTotalDelegated(ctx, sdk.bondDenom, actor);
    newTotal := newTotal.(amount := newTotal.amount + amt.amount);
    if amt.amount <= 0 { return Err(InvalidRequest), newTotal; }
    if amt.denom != sdk.bondDenom { return Err(InvalidRequest), newTotal; }
    if sdk.isBonded(ctx.app.staking, valAddr).None? { return Err(NoValidatorFound), newTotal; }
    var max := GetMaxCapLimit(ctx, sdk.bondDenom, actor);
    if max.amount < newTotal.amount { return Err(MaxCapExceeded), newTotal; }
    return Ok(amt.amount), newTotal;
  }

  method Issue<T>(ctx: Context<Bank<T>>, sdk: Sdk<T>, actor: Addr, n: nat) returns (err: Option<Error>)
    modifies ctx`app
    ensures var issued := IssueCoins(sdk, old(ctx.app), actor, n);
            err == ErrOf(issued) && (issued.Ok? ==> ctx.app == issued.value)
  {
    var minted := MintCoins(sdk, ctx.app, n);
    if minted.Err? { return Some(minted.error); }
    ctx.app := AddSupplyOffset(sdk, minted.value, 0 - n);
    var sent := SendToAccount(sdk, ctx.app, actor, n);
    if sent.Err? { return Some(sent.error); }
    ctx.app := sent.value;
    return None;
  }

  /** Issue the coins and hand them to the staking module, which may refuse them. */
  method IssueAndBond<T>(ctx: Context<Bank<T>>, sdk: Sdk<T>, actor: Addr, valAddr: Addr, n: nat)
    returns (err: Option<Error>, newShares: Result<Dec.Raw>)
    modifies ctx`app
    ensures var s := StakeCoins(sdk, old(ctx.app), actor, valAddr, n);
            if s.Rejected? then err == Some(s.error) else err == None && ctx.app == s.bank && newShares == s.result
  {
    newShares := Err(External);
    err := Issue(ctx, sdk, actor, n);
    if err.Some? { return; }
    var (bank, shares) := sdk.delegate(ctx.app, actor, valAddr, n);
    ctx.app := bank;
    newShares := shares;
  }

  /** Record the new total in the branch, and write the branch back. */
  method Book<S>(pCtx: Context<S>, cacheCtx: Context<S>, bondDenom: string, actor: Addr, newTotal: Coin)
    requires newTotal.denom == bondDenom && pCtx != cacheCtx
    modifies pCtx`store, pCtx`mem, pCtx`app, cacheCtx`store
    ensures pCtx.store == WithTotalDelegated(old(cacheCtx.store), actor, newTotal.amount)
    ensures pCtx.mem == old(cacheCtx.mem) && pCtx.app == old(cacheCtx.app)
  {
    var _ := SetTotalDelegated(cacheCtx, bondDenom, actor, newTotal);
    pCtx.Commit(cacheCtx);
  }

  /** The part of `Delegate` that works in a branch. */
  method DelegateInBranch<T>(pCtx: Context<Bank<T>>, sdk: Sdk<T>, actor: Addr, valAddr: Addr, n: nat, newTotal: Coin)
    returns (r: Result<Dec.Raw>)
    requires newTotal.denom == sdk.bondDenom
    modifies pCtx`store, pCtx`mem, pCtx`app
    ensures pCtx.mem == old(pCtx.mem)
    ensures var s := StakeCoins(sdk, old(pCtx.app), actor, valAddr, n);
            if s.Rejected? then r == Err(s.error) && pCtx.store == old(pCtx.store) && pCtx.app == old(pCtx.app)
            else r == s.result && pCtx.app == s.bank
                 && pCtx.store == WithTotalDelegated(old(pCtx.store), actor, newTotal.amount)
  {
    var cacheCtx := pCtx.CacheContext();
    var err, newShares := IssueAndBond(cacheCtx, sdk, actor, valAddr, n);
    if err.Some? { return Err(err.value); }
    Book(pCtx, cacheCtx, sdk.bondDenom, actor, newTotal);
    r := newShares;
  }

  method Delegate<T>(pCtx: Context<Bank<T>>, sdk: Sdk<T>, actor: Addr, valAddr: Addr, amt: Coin)
    returns (r: Result<Dec.Raw>)
    requires Sound(pCtx.store)
    modifies pCtx`store, pCtx`mem, pCtx`app
    ensures Sound(pCtx.store) && pCtx.mem == old(pCtx.mem)
    ensures r == DelegateResult(sdk, old(LedgerOf(pCtx)), actor, valAddr, amt)
    ensures Stake(sdk, old(LedgerOf(pCtx)), actor, valAddr, amt).Rejected? ==>
              pCtx.store == old(pCtx.store) && pCtx.app == old(pCtx.app)
    ensures LedgerOf(pCtx) == AfterDelegate(sdk, old(LedgerOf(pCtx)), actor, valAddr, amt)
  {
    var n, newTotal := CheckDelegate(pCtx, sdk, actor, valAddr, amt);
    if n.Err? { return Err(n.error); }
    SetDelegated(pCtx.store, actor, newTotal.amount);
    r := DelegateInBranch(pCtx, sdk, actor, valAddr, n.value, newTotal);
  }

  // ------------------------------------------------------------ undelegating

  /** Unbond and hand the coins over without waiting: how much came back, and
      the bank at that point. */
  function Undelegated<T>(
    sdk: Sdk<T>, b: Bank<T>, actor: Addr, valAddr: Addr, shares: Dec.Raw): Result<(Bank<T>, nat)>
  {
    var bonded := sdk.isBonded(b.staking, valAddr);
    if bonded.None? then Err(NoDelegator)
    else
      var (unbonded, amount) := sdk.unbond(b, actor, valAddr, shares);
      if amount.Err? then Err(amount.error)
      else if amount.value < 0 then Err(Panicked)
      else
        var released := UndelegateCoins(sdk, unbonded, bonded.value, actor, amount.value);
        if released.Err? then Err(released.error) else Ok((released.value, amount.value))
  }

  method InstantUndelegate<T>(ctx: Context<Bank<T>>, sdk: Sdk<T>, actor: Addr, valAddr: Addr, shares: Dec.Raw)
    returns (r: Result<nat>)
    modifies ctx`app
    ensures var u := Undelegated(sdk, old(ctx.app), actor, valAddr, shares);
            if u.Err? then r == Err(u.error) else r == Ok(u.value.1) && ctx.app == u.value.0
  {
    var bonded := sdk.isBonded(ctx.app.staking, valAddr);
    if bonded.None? { return Err(NoDelegator); }
    var (unbonded, amount) := sdk.unbond(ctx.app, actor, valAddr, shares);
    ctx.app := unbonded;
    if amount.Err? { return Err(amount.error); }
    if amount.value < 0 { return Err(Panicked); }
    var released := UndelegateCoins(sdk, ctx.app, bonded.value, actor, amount.value);
    if released.Err? { return Err(released.error); }
    ctx.app := released.value;
    r := Ok(amount.value);
  }

  /** The released coins taken from the actor again and destroyed. */
  function Destroyed<T>(sdk: Sdk<T>, b: Bank<T>, actor: Addr, n: nat): Result<Bank<T>> {
    var taken := SendToModule(sdk, b, actor, n);
    if taken.Err? then taken
    else
      var burned := BurnCoins(sdk, taken.value, n);
      if burned.Err? then burned else Ok(AddSupplyOffset(sdk, burned.value, n))
  }

  method Destroy<T>(ctx: Context<Bank<T>>, sdk: Sdk<T>, actor: Addr, n: nat) returns (err: Option<Error>)
    modifies ctx`app
    ensures var gone := Destroyed(sdk, old(ctx.app), actor, n);
            err == ErrOf(gone) && (gone.Ok? ==> ctx.app == gone.value)
  {
    var taken := SendToModule(sdk, ctx.app, actor, n);
    if taken.Err? { return Some(taken.error); }
    ctx.app := taken.value;
    var burned := BurnCoins(sdk, ctx.app, n);
    if burned.Err? { return Some(burned.error); }
    ctx.app := AddSupplyOffset(sdk, burned.value, n);
    return None;
  }

  /** What an undelegation does: nothing, with or without an error, or a change
      of the bank and the amount that came back. */
  datatype Unstaking<T> = Nothing(result: Result<()>) | Unstaked(bank: Bank<T>, amount: nat)

  function ValidateUnbondAmount<T>(sdk: Sdk<T>, b: Bank<T>, actor: Addr, valAddr: Addr, n: nat): UnbondCheck {
    sdk.validateUnbondAmount(b.staking, actor, valAddr, n)
  }

  /** Unbonding coins of an actor with `total` on record. More than that cannot
      be taken off the record: the subtraction panics. */
  function UnstakeCoins<T>(
    sdk: Sdk<T>, b: Bank<T>, actor: Addr, valAddr: Addr, n: nat, total: nat): (u: Unstaking<T>)
    ensures u.Unstaked? ==> u.amount <= total
  {
    match ValidateUnbondAmount(sdk, b, actor, valAddr, n)
    case NoDelegation => Nothing(Ok(()))
    case Refused(e) => Nothing(Err(e))
    case Shares(shares) =>
      var back := Undelegated(sdk, b, actor, valAddr, shares);
      if back.Err? then Nothing(Err(back.error))
      else
        var gone := Destroyed(sdk, back.value.0, actor, back.value.1);
        if gone.Err? then Nothing(Err(gone.error))
        else if total < back.value.1 then Nothing(Err(Panicked))
        else Unstaked(gone.value, back.value.1)
  }

  function Unstake<T>(sdk: Sdk<T>, l: Ledger<T>, actor: Addr, valAddr: Addr, amt: Coin): Unstaking<T> {
    var n := MayUndelegate(sdk, l, actor, amt);
    if n.Err? then Nothing(Err(n.error))
    else UnstakeCoins(sdk, l.bank, actor, valAddr, n.value, DelegatedTotal(l.records.delegated, actor))
  }

  function AfterUndelegate<T>(sdk: Sdk<T>, l: Ledger<T>, actor: Addr, valAddr: Addr, amt: Coin): Ledger<T> {
    match Unstake(sdk, l, actor, valAddr, amt)
    case Nothing(_) => l
    case Unstaked(bank, n) =>
      Booked(l, actor, DelegatedTotal(l.records.delegated, actor) - n, bank)
  }

  /** The checks before any coin moves. */
  function MayUndelegate<T>(sdk: Sdk<T>, l: Ledger<T>, actor: Addr, amt: Coin): Result<nat> {
    if amt.amount <= 0 || amt.denom != sdk.bondDenom then Err(InvalidRequest)
    else if DelegatedTotal(l.records.delegated, actor) < amt.amount then Err(InvalidRequest)
    else Ok(amt.amount)
  }

  method CheckUndelegate<T>(ctx: Context<Bank<T>>, sdk: Sdk<T>, actor: Addr, amt: Coin)
    returns (r: Result<nat>, total: Coin)
    requires Sound(ctx.store)
    ensures r == MayUndelegate(sdk, LedgerOf(ctx), actor, amt)
    ensures total == Coin(sdk.bondDenom, DelegatedTotal(LedgerOf(ctx).records.delegated, actor))
  {
    total := GetTotalDelegated(ctx, sdk.bondDenom, actor);
    if amt.amount <= 0 { return Err(InvalidRequest), total; }
    if amt.denom != sdk.bondDenom { return Err(InvalidRequest), total; }
    if total.amount < amt.amount { return Err(InvalidRequest), total; }
    return Ok(amt.amount), total;
  }

  function UnstakeResult<T>(u: Unstaking<T>): Result<()> {
    if u.Nothing? then u.result else Ok(())
  }

  function UnstakedStore<T>(store: Kv, actor: Addr, total: nat, u: Unstaking<T>): Kv {
    if u.Unstaked? then WithTotalDelegated(store, actor, total - u.amount) else store
  }

  lemma UnstakedRecords<T>(store: Kv, actor: Addr, total: nat, u: Unstaking<T>)
    requires Sound(store)
    ensures var s := UnstakedStore(store, actor, total, u);
            && Sound(s)
            && RecordsOf(s) ==
               if u.Nothing? then RecordsOf(store)
               else RecordsOf(store).(delegated := RecordsOf(store).delegated[actor := total - u.amount])
  {
    if u.Unstaked? { SetDelegated(store, actor, total - u.amount); }
  }

  /** `Coin.Sub` of the Cosmos SDK panics when denominations differ or the result
      is negative. */
  function SubCoin(a: Coin, b: Coin): Result<Coin> {
    if a.denom != b.denom || a.amount < b.amount then Err(Panicked) else Ok(Coin(a.denom, a.amount - b.amount))
  }

  /** The part of `Undelegate` that works in a branch. */
  method UndelegateInBranch<T>(pCtx: Context<Bank<T>>, sdk: Sdk<T>, actor: Addr, valAddr: Addr, n: nat, total: Coin)
    returns (r: Result<()>)
    requires total.denom == sdk.bondDenom && total.amount >= 0
    modifies pCtx`store, pCtx`mem, pCtx`app
    ensures pCtx.mem == old(pCtx.mem)
    ensures var u := UnstakeCoins(sdk, old(pCtx.app), actor, valAddr, n, total.amount);
            && r == UnstakeResult(u)
            && pCtx.app == (if u.Unstaked? then u.bank else old(pCtx.app))
            && pCtx.store == UnstakedStore(old(pCtx.store), actor, total.amount, u)
  {
    var cacheCtx := pCtx.CacheContext();
    var check := ValidateUnbondAmount(sdk, cacheCtx.app, actor, valAddr, n);
    if check.NoDelegation? { return Ok(()); }
    if check.Refused? { return Err(check.error); }
    var coins := InstantUndelegate(cacheCtx, sdk, actor, valAddr, check.shares);
    if coins.Err? { return Err(coins.error); }
    var err := Destroy(cacheCtx, sdk, actor, coins.value);
    if err.Some? { return Err(err.value); }
    var newAmount := SubCoin(total, Coin(sdk.bondDenom, coins.value));
    if newAmount.Err? { return Err(newAmount.error); }
    if newAmount.value.amount < 0 {
      newAmount := Ok(Coin(sdk.bondDenom, 0));
    }
    Book(pCtx, cacheCtx, sdk.bondDenom, actor, newAmount.value);
    r := Ok(());
  }

  /** All or nothing: an undelegation that does not end with the coins destroyed
      leaves every record and balance as it was. */
  method Undelegate<T>(pCtx: Context<Bank<T>>, sdk: Sdk<T>, actor: Addr, valAddr: Addr, amt: Coin)
    returns (r: Result<()>)
    requires Sound(pCtx.store)
    modifies pCtx`store, pCtx`mem, pCtx`app
    ensures Sound(pCtx.store) && pCtx.mem == old(pCtx.mem)
    ensures LedgerOf(pCtx) == AfterUndelegate(sdk, old(LedgerOf(pCtx)), actor, valAddr, amt)
    ensures var u := Unstake(sdk, old(LedgerOf(pCtx)), actor, valAddr, amt);
            && r == UnstakeResult(u)
            && (u.Nothing? ==> pCtx.store == old(pCtx.store) && pCtx.app == old(pCtx.app))
  {
    var n, total := CheckUndelegate(pCtx, sdk, actor, amt);
    if n.Err? { return Err(n.error); }
    UnstakedRecords(pCtx.store, actor, total.amount,
                    UnstakeCoins(sdk, pCtx.app, actor, valAddr, n.value, total.amount));
    r := UndelegateInBranch(pCtx, sdk, actor, valAddr, n.value, total);
  }

  /** The net effect on the bank: accounts, this module's included, are as the
      unbonding left them; pool and supply drop by what came back. */
  lemma NetOfUnstaking<T>(sdk: Sdk<T>, b: Bank<T>, unbonded: Bank<T>, bonded: bool, actor: Addr, n: nat)
    ensures var released := UndelegateCoins(sdk, unbonded, bonded, actor, n);
            && (released.Ok? ==>
                  var gone, pool := Destroyed(sdk, released.value, actor, n), InPool(unbonded, bonded);
                  && n <= pool
                  && (gone.Ok? ==> gone.value == AddSupplyOffset(sdk, WithPool(unbonded, bonded, pool - n), n)
                                                 .(supply := unbonded.supply - n)))
  {
    PaidAndTaken(unbonded.accounts, actor, n);
  }

  /** The coins that came back, out of the pool of the validator and destroyed. */
  lemma DestroyMeans<T>(sdk: Sdk<T>, u: Bank<T>, bonded: bool, actor: Addr, k: nat)
    ensures var released := UndelegateCoins(sdk, u, bonded, actor, k);
            var releasing := sdk.refuses(u, Release(bonded, actor, k));
            if releasing.Some? then released == Err(releasing.value)
            else if (if bonded then u.bonded else u.notBonded) < k then released == Err(External)
            else
              var left := if bonded then u.(bonded := u.bonded - k) else u.(notBonded := u.notBonded - k);
              var paid := left.(accounts := u.accounts[actor := u.accounts[actor] + k]);
              var taken := left.(own := u.own + k);
              var taking, burning := sdk.refuses(paid, Take(actor, k)), sdk.refuses(taken, Burn(k));
              && released == Ok(paid)
              && Destroyed(sdk, paid, actor, k) ==
                 if taking.Some? then Err(taking.value)
                 else if burning.Some? then Err(burning.value)
                 else Ok(left.(supply := u.supply - k,
                               offset := if sdk.supportsOffset then u.offset + k else u.offset))
  {
    PaidAndTaken(u.accounts, actor, k);
  }

  /** Undelegating asks the staking module for the shares the amount is worth and
      has it unbond them for the actor from the validator. What comes back leaves
      the pool of that validator, the supply falls and the offset rises by it, and
      the accounts end as the unbonding left them. This happens when the staking
      module has the delegation, the bank refuses nothing, and no more comes back
      than `total`. */
  lemma UnstakeMeans<T>(sdk: Sdk<T>, b: Bank<T>, actor: Addr, valAddr: Addr, n: nat, total: nat)
    ensures var r := UnstakeCoins(sdk, b, actor, valAddr, n, total);
            match sdk.validateUnbondAmount(b.staking, actor, valAddr, n)
            case NoDelegation => r == Nothing(Ok(()))
            case Refused(e) => r == Nothing(Err(e))
            case Shares(shares) =>
              var status := sdk.isBonded(b.staking, valAddr);
              var (u, back) := sdk.unbond(b, actor, valAddr, shares);
              if status.None? then r == Nothing(Err(NoDelegator))
              else if back.Err? then r == Nothing(Err(back.error))
              else if back.value < 0 then r == Nothing(Err(Panicked))
              else
                var k, bonded := back.value, status.value;
                var releasing := sdk.refuses(u, Release(bonded, actor, k));
                if releasing.Some? then r == Nothing(Err(releasing.value))
                else if (if bonded then u.bonded else u.notBonded) < k then r == Nothing(Err(External))
                else
                  var left := if bonded then u.(bonded := u.bonded - k) else u.(notBonded := u.notBonded - k);
                  var paid := left.(accounts := u.accounts[actor := u.accounts[actor] + k]);
                  var taken := left.(own := u.own + k);
                  var taking, burning := sdk.refuses(paid, Take(actor, k)), sdk.refuses(taken, Burn(k));
                  if taking.Some? then r == Nothing(Err(taking.value))
                  else if burning.Some? then r == Nothing(Err(burning.value))
                  else if total < k then r == Nothing(Err(Panicked))
                  else r == Unstaked(left.(supply := u.supply - k,
                                           offset := if sdk.supportsOffset then u.offset + k else u.offset), k)
  {
    var check := sdk.validateUnbondAmount(b.staking, actor, valAddr, n);
    if check.Shares? && sdk.isBonded(b.staking, valAddr).Some? {
      var (u, back) := sdk.unbond(b, actor, valAddr, check.shares);
      if back.Ok? && back.value >= 0 {
        var k, bonded := back.value, sdk.isBonded(b.staking, valAddr).value;
        var released := UndelegateCoins(sdk, u, bonded, actor, k);
        DestroyMeans(sdk, u, bonded, actor, k);
        if released.Ok? {
          var gone := Destroyed(sdk, released.value, actor, k);
          assert UnstakeCoins(sdk, b, actor, valAddr, n, total) ==
                 if gone.Err? then Nothing(Err(gone.error))
                 else if total < k then Nothing(Err(Panicked)) else Unstaked(gone.value, k);
        }
      }
    }
  }

  /** An undelegation is refused before that unless the amount is a positive one in
      the staking denomination and no more than is recorded. When coins came back
      the record falls by them; otherwise nothing changes. */
  lemma UndelegateMeans<T>(sdk: Sdk<T>, l: Ledger<T>, actor: Addr, valAddr: Addr, amt: Coin)
    ensures var recorded := Amount(l.records.delegated, actor);
            var total: nat := if recorded < 0 then 0 else recorded;
            var result := UnstakeResult(Unstake(sdk, l, actor, valAddr, amt));
            var after := AfterUndelegate(sdk, l, actor, valAddr, amt);
            if amt.amount <= 0 || amt.denom != sdk.bondDenom || total < amt.amount
            then result == Err(InvalidRequest) && after == l
            else
              match UnstakeCoins(sdk, l.bank, actor, valAddr, amt.amount, total)
              case Nothing(r) => result == r && after == l
              case Unstaked(bank, k) =>
                && result == Ok(()) && after.bank == bank
                && after.records == l.records.(delegated := l.records.delegated[actor := total - k])
  {
  }
}
