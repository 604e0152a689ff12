/** Balances in the staking denomination, and what the virtual-stake ledger
    asks of the bank and the staking module. */
module Bank {
  import opened Bytes
  import opened Types
  import opened Amounts
  import Dec

  /** Coins by their owner: the multiplicity of an address is its balance. */
  type Balances = multiset<Addr>

  lemma PaidAndTaken(m: Balances, c: Addr, n: nat)
    ensures m[c := m[c] + n][c := m[c]] == m
  {
  }

  /** The supply and its offset, the account of this module, all other accounts,
      the two pools of the staking module, and whatever else it keeps. */
  datatype Bank<T> = Bank(
    supply: int,
    offset: int,
    own: nat,
    accounts: Balances,
    bonded: nat,
    notBonded: nat,
    staking: T)

  datatype BankOp =
    | Mint(n: nat)
    | Pay(to: Addr, n: nat)
    | Take(from: Addr, n: nat)
    | Burn(n: nat)
    | Release(bonded: bool, to: Addr, n: nat)

  datatype UnbondCheck = NoDelegation | Refused(error: Error) | Shares(shares: Dec.Raw)

  /** The rest of the application: reasons of its own for the bank to refuse an
      operation, whether it keeps a supply offset, and the staking module. */
  datatype Sdk<!T> = Sdk(
    bondDenom: string,
    supportsOffset: bool,
    refuses: (Bank<T>, BankOp) -> Option<Error>,
    isBonded: (T, Addr) -> Option<bool>,
    delegate: (Bank<T>, Addr, Addr, nat) -> (Bank<T>, Result<Dec.Raw>),
    validateUnbondAmount: (T, Addr, Addr, nat) -> UnbondCheck,
    unbond: (Bank<T>, Addr, Addr, Dec.Raw) -> (Bank<T>, Result<int>))

  function MintCoins<T>(sdk: Sdk<T>, b: Bank<T>, n: nat): Result<Bank<T>> {
    var no := sdk.refuses(b, Mint(n));
    if no.Some? then Err(no.value) else Ok(b.(supply := b.supply + n, own := b.own + n))
  }

  /** A bank without supply offsets ignores them. */
  function AddSupplyOffset<T>(sdk: Sdk<T>, b: Bank<T>, n: int): Bank<T> {
    if sdk.supportsOffset then b.(offset := b.offset + n) else b
  }

  function SendToAccount<T>(sdk: Sdk<T>, b: Bank<T>, to: Addr, n: nat): Result<Bank<T>> {
    var no := sdk.refuses(b, Pay(to, n));
    if no.Some? then Err(no.value)
    else if b.own < n then Err(External)
    else Ok(b.(own := b.own - n, accounts := b.accounts[to := b.accounts[to] + n]))
  }

  function SendToModule<T>(sdk: Sdk<T>, b: Bank<T>, from: Addr, n: nat): Result<Bank<T>> {
    var no := sdk.refuses(b, Take(from, n));
    if no.Some? then Err(no.value)
    else if b.accounts[from] < n then Err(External)
    else Ok(b.(own := b.own + n, accounts := b.accounts[from := b.accounts[from] - n]))
  }

  function BurnCoins<T>(sdk: Sdk<T>, b: Bank<T>, n: nat): Result<Bank<T>> {
    var no := sdk.refuses(b, Burn(n));
    if no.Some? then Err(no.value)
    else if b.own < n then Err(External)
    else Ok(b.(own := b.own - n, supply := b.supply - n))
  }

  function InPool<T>(b: Bank<T>, bonded: bool): nat {
    if bonded then b.bonded else b.notBonded
  }

  function WithPool<T>(b: Bank<T>, bonded: bool, n: nat): Bank<T> {
    if bonded then b.(bonded := n) else b.(notBonded := n)
  }

  function UndelegateCoins<T>(sdk: Sdk<T>, b: Bank<T>, bonded: bool, to: Addr, n: nat): Result<Bank<T>> {
    var no := sdk.refuses(b, Release(bonded, to, n));
    if no.Some? then Err(no.value)
    else if InPool(b, bonded) < n then Err(External)
    else Ok(WithPool(b, bonded, InPool(b, bonded) - n)
            .(accounts := b.accounts[to := b.accounts[to] + n]))
  }
}
