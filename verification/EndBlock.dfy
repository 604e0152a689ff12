/** The end blocker: report the validator-set events of the block to every
    contract that was notified, empty the pipe, run the epoch tasks. */
module EndBlock {
  import opened Bytes
  import opened Types
  import opened Keys
  import opened Scheduler
  import opened SchedulerKeeper
  import opened Amounts
  import opened Valset
  import opened ValsetKeeper
  import Dec
  import Decimal

  datatype SudoMsg = HandleEpoch | ValsetUpdateMsg(report: ValsetUpdate)

  /** The rest of the application: what the staking module says in a state, and
      what a contract does with a message. A call may change the application in
      any way, read the caps, bond and unbond within the same branch and thereby
      change delegated totals, fail or panic; tasks, caps and pipe are beyond its
      reach. */
  datatype Env<!S> = Env(
    view: S -> StakingView,
    sudo: (World<S>, AmountTable, Addr, SudoMsg) -> Outcome<World<S>>)

  // -------------------------------------------------- proportional slashes

  /** `DelegatorSlash` with the sign of the total. */
  function SignedSlash(delegatorShares: Dec.Raw, validatorShares: Dec.Raw, total: int): int {
    if total < 0 then -(Dec.DelegatorSlash(delegatorShares, validatorShares, 0 - total) as int)
    else Dec.DelegatorSlash(delegatorShares, validatorShares, total)
  }

  /** The contract's part of one slash. */
  function SlashShare(view: StakingView, contract: Addr, slash: ValidatorSlash): Result<Bytes> {
    var total := Decimal.Parse(slash.slashAmount);
    var validator := view.validator(slash.validatorAddr);
    if total.None? then Err(Invalid)
    else if validator.None? then Err(Unknown)
    else
      var delegation := view.delegation(contract, slash.validatorAddr);
      var shares := if delegation.None? then 0 else delegation.value;
      Ok(Decimal.Text(SignedSlash(shares, validator.value.delegatorShares, total.value)))
  }

  /** The share of a slash: by the delegation of the contract to the slashed
      validator, none of which counts as zero shares; an amount that is no number
      is found out before an unknown validator. */
  lemma ShareMeans(view: StakingView, contract: Addr, slash: ValidatorSlash)
    ensures var r := SlashShare(view, contract, slash);
            var total, validator := Decimal.Parse(slash.slashAmount), view.validator(slash.validatorAddr);
            && (total.None? ==> r == Err(Invalid))
            && (total.Some? && validator.None? ==> r == Err(Unknown))
            && (total.Some? && validator.Some? ==>
                  var delegation := view.delegation(contract, slash.validatorAddr);
                  var mine, all := if delegation.Some? then delegation.value else 0, validator.value.delegatorShares;
                  && r.Ok?
                  && var share := Decimal.Parse(r.value);
                  && (total.value >= 0 ==> share == Some(Dec.DelegatorSlash(mine, all, total.value)))
                  && (total.value < 0 ==> share == Some(-(Dec.DelegatorSlash(mine, all, -total.value) as int))))
  {
    var total, validator := Decimal.Parse(slash.slashAmount), view.validator(slash.validatorAddr);
    if total.Some? && validator.Some? {
      var delegation := view.delegation(contract, slash.validatorAddr);
      var mine := if delegation.Some? then delegation.value else 0;
      Decimal.TextRoundTrip(SignedSlash(mine, validator.value.delegatorShares, total.value));
    }
  }

  ghost predicate AllShared(view: StakingView, contract: Addr, slashed: seq<ValidatorSlash>) {
    forall i | 0 <= i < |slashed| :: SlashShare(view, contract, slashed[i]).Ok?
  }

  function ShareOf(view: StakingView, contract: Addr, slash: ValidatorSlash): ValidatorSlash {
    var share := SlashShare(view, contract, slash);
    if share.Ok? then slash.(slashAmount := share.value) else slash
  }

  function Shares(view: StakingView, contract: Addr, slashed: seq<ValidatorSlash>): (r: seq<ValidatorSlash>)
    ensures |r| == |slashed|
    ensures forall i | 0 <= i < |r| :: r[i] == ShareOf(view, contract, slashed[i])
  {
    seq(|slashed|, i requires 0 <= i < |slashed| => ShareOf(view, contract, slashed[i]))
  }

  /** The first error among the shares. */
  function FirstError(view: StakingView, contract: Addr, slashed: seq<ValidatorSlash>): Option<Error> {
    if slashed == [] then None
    else
      var share := SlashShare(view, contract, slashed[0]);
      if share.Err? then Some(share.error) else FirstError(view, contract, slashed[1..])
  }

  /** The report of the block with the amounts of one contract. */
  function ForContract(view: StakingView, contract: Addr, r: ValsetUpdate): Result<ValsetUpdate> {
    var err := FirstError(view, contract, r.slashed);
    if err.Some? then Err(err.value) else Ok(r.(slashed := Shares(view, contract, r.slashed)))
  }

  lemma {:induction false} FirstErrorAt(view: StakingView, contract: Addr, slashed: seq<ValidatorSlash>, i: nat)
    requires i < |slashed|
    requires forall j | 0 <= j < i :: SlashShare(view, contract, slashed[j]).Ok?
    requires SlashShare(view, contract, slashed[i]).Err?
    ensures FirstError(view, contract, slashed) == Some(SlashShare(view, contract, slashed[i]).error)
  {
    if i > 0 { FirstErrorAt(view, contract, slashed[1..], i - 1); }
  }

  lemma {:induction false} NoErrorIff(view: StakingView, contract: Addr, slashed: seq<ValidatorSlash>)
    ensures FirstError(view, contract, slashed).None? <==> AllShared(view, contract, slashed)
  {
    if slashed != [] {
      NoErrorIff(view, contract, slashed[1..]);
      if AllShared(view, contract, slashed[1..]) && SlashShare(view, contract, slashed[0]).Ok? {
        forall i | 0 <= i < |slashed| ensures SlashShare(view, contract, slashed[i]).Ok? {
          if i > 0 { assert slashed[i] == slashed[1..][i - 1]; }
        }
      }
      if AllShared(view, contract, slashed) {
        forall i | 0 <= i < |slashed| - 1 ensures SlashShare(view, contract, slashed[1..][i]).Ok? {
          assert slashed[1..][i] == slashed[i + 1];
        }
      }
    }
  }

  /** Overwrite the slash amounts of the report in place. */
  method ApportionSlashes(view: StakingView, contract: Addr, slashed: array<ValidatorSlash>)
    returns (err: Option<Error>)
    modifies slashed
    ensures err == FirstError(view, contract, old(slashed[..]))
    ensures err.None? ==> slashed[..] == Shares(view, contract, old(slashed[..]))
  {
    ghost var was := slashed[..];
    for i := 0 to slashed.Length
      invariant forall j | 0 <= j < i ::
                  SlashShare(view, contract, was[j]).Ok? && slashed[j] == ShareOf(view, contract, was[j])
      invariant forall j | i <= j < slashed.Length :: slashed[j] == was[j]
    {
      var share := SlashShare(view, contract, slashed[i]);
      if share.Err? {
        FirstErrorAt(view, contract, was, i);
        return Some(share.error);
      }
      slashed[i] := slashed[i].(slashAmount := share.value);
    }
    NoErrorIff(view, contract, was);
    return None;
  }

  // ------------------------------------------------------------- callbacks

  /** What is handed to a contract at the end of a block. */
  function Prepared(view: StakingView, contract: Addr, height: Height, time: i64, mem: Kv): Result<ValsetUpdate> {
    var r := Report(view, height, time, mem);
    if r.Err? then r else ForContract(view, contract, r.value)
  }

  /** The same, computed step by step. */
  method PrepareReport<S>(ctx: Context<S>, view: StakingView, contract: Addr) returns (r: Result<ValsetUpdate>)
    ensures r == Prepared(view, contract, ctx.height, ctx.time, ctx.mem)
  {
    r := ValsetUpdateReport(ctx, view);
    if r.Err? { return; }
    var report := r.value;
    var slashed := new ValidatorSlash[|report.slashed|](i requires 0 <= i < |report.slashed| => report.slashed[i]);
    assert slashed[..] == report.slashed;
    var err := ApportionSlashes(view, contract, slashed);
    if err.Some? { return Err(err.value); }
    r := Ok(report.(slashed := slashed[..]));
  }

  /** The call of a valset-update task. */
  function ValsetCallback<S>(
    env: Env<S>, caps: AmountTable, height: Height, time: i64, mem: Kv): Executor<World<S>>
  {
    (w: World<S>, contract: Addr) =>
      var r := Prepared(env.view(w.app), contract, height, time, mem);
      if r.Ok? then env.sudo(w, caps, contract, ValsetUpdateMsg(r.value))
      else if r.error == Panicked then Panic(w)
      else Failed(w, r.error)
  }

  /** The call of an epoch task. */
  function EpochCallback<S>(env: Env<S>, caps: AmountTable): Executor<World<S>> {
    (w: World<S>, contract: Addr) => env.sudo(w, caps, contract, HandleEpoch)
  }

  // ---------------------------------------------------------- the two passes

  /** A pass of one type leaves the due list of another type alone. */
  lemma OtherTypeDue(t: Table, tp: byte, tp': byte, now: Height, epochLength: u64)
    requires tp != tp'
    ensures Due(AfterPass(t, tp, now, epochLength), tp', now) == Due(t, tp', now)
    ensures forall x: Task | x.tp == tp' :: x in AfterPass(t, tp, now, epochLength) <==> x in t
    ensures forall x: Task | x.tp == tp' && x in t :: AfterPass(t, tp, now, epochLength)[x] == t[x]
  {
    var after := AfterPass(t, tp, now, epochLength);
    forall x: Task | x.tp == tp'
      ensures x in after <==> x in t
      ensures x in t ==> after[x] == t[x]
    {
      AfterPassCharacterised(t, tp, now, epochLength, x);
    }
    assert DueSet(after, tp', now) == DueSet(t, tp', now);
    DueCharacterised(t, tp', now);
    DueCharacterised(after, tp', now);
    DueUnique(after, tp', now, Due(t, tp', now));
  }

  /** The table at the end of a block. */
  function TasksAfterBlock(t: Table, now: Height, epochLength: u64): Table {
    AfterPass(AfterPass(t, TASK_VALSET_UPDATE, now, epochLength), TASK_HANDLE_EPOCH, now, epochLength)
  }

  /** A context as a value. */
  datatype Chain<S> = Chain(height: Height, time: i64, records: Records, mem: Kv, app: S)

  ghost function ChainOf<S>(ctx: Context<S>): Chain<S>
    requires Sound(ctx.store)
    reads ctx
  {
    Chain(ctx.height, ctx.time, RecordsOf(ctx.store), ctx.mem, ctx.app)
  }

  /** The tasks a block calls contracts for. */
  ghost function UpdatesDue<S>(st: Chain<S>): seq<Task> {
    Due(st.records.tasks, TASK_VALSET_UPDATE, st.height)
  }

  ghost function EpochsDue<S>(st: Chain<S>): seq<Task> {
    Due(st.records.tasks, TASK_HANDLE_EPOCH, st.height)
  }

  function UpdateCall<S>(env: Env<S>, st: Chain<S>): Executor<World<S>> {
    ValsetCallback(env, st.records.caps, st.height, st.time, st.mem)
  }

  function EpochCall<S>(env: Env<S>, st: Chain<S>): Executor<World<S>> {
    EpochCallback(env, st.records.caps)
  }

  /** What the calls of a block can change. */
  function WorldIn<S>(st: Chain<S>): World<S> {
    World(st.app, st.records.delegated)
  }

  /** The state when calls have left the world as `w` and tasks as `t`. */
  function Left<S>(st: Chain<S>, t: Table, w: World<S>): Chain<S> {
    st.(records := Records(t, st.records.caps, w.delegated), app := w.app)
  }

  /** The world after both passes of a block. */
  ghost function WorldAfterBlock<S>(env: Env<S>, st: Chain<S>): World<S> {
    StateAfter(StateAfter(WorldIn(st), UpdatesDue(st), UpdateCall(env, st)), EpochsDue(st), EpochCall(env, st))
  }

  /** The state after the end blocker. */
  ghost function BlockEnd<S>(env: Env<S>, epochLength: u32, st: Chain<S>): Chain<S> {
    Left(st, TasksAfterBlock(st.records.tasks, st.height, epochLength), WorldAfterBlock(env, st))
    .(mem := st.mem - PipeKeys(st.mem))
  }

  /** What an end blocker does to tasks, caps and pipe: a due task of either kind
      is gone, one that repeats comes back an epoch ahead when there are epochs,
      and the pipe is empty; nothing else changes. */
  lemma BlockEndMeans<S>(env: Env<S>, epochLength: u32, st: Chain<S>, x: Task, key: Bytes)
    ensures var to := BlockEnd(env, epochLength, st);
            var t, t' := st.records.tasks, to.records.tasks;
            var ours := x.tp == TASK_VALSET_UPDATE || x.tp == TASK_HANDLE_EPOCH;
            var kept := x in t && !(ours && x.height <= st.height);
            var again := ours && 0 < epochLength && x.height == st.height + epochLength
                         && exists h: u64 :: h <= st.height && var y := Task(x.tp, h, x.contract); y in t && t[y];
            && (x in t' <==> kept || again)
            && (x in t' ==> t'[x] == (again || t[x]))
            && to.records.caps == st.records.caps && to.height == st.height && to.time == st.time
            && (key in to.mem <==> key in st.mem && !(PIPED_VALSET_PREFIX <= key))
            && (key in to.mem ==> to.mem[key] == st.mem[key])
  {
    var t := st.records.tasks;
    var mid := AfterPass(t, TASK_VALSET_UPDATE, st.height, epochLength);
    AfterPassCharacterised(t, TASK_VALSET_UPDATE, st.height, epochLength, x);
    AfterPassCharacterised(mid, TASK_HANDLE_EPOCH, st.height, epochLength, x);
    OtherTypeDue(t, TASK_VALSET_UPDATE, TASK_HANDLE_EPOCH, st.height, epochLength);
    if x.tp == TASK_HANDLE_EPOCH {
      forall h: u64
        ensures var y := Task(TASK_HANDLE_EPOCH, h, x.contract); (y in mid <==> y in t) && (y in t ==> mid[y] == t[y])
      {
      }
    }
  }

  /** No result reports a failed re-scheduling or deletion, so the response
      handlers of the module never halt the chain over one. */
  ghost predicate NoProvisioningError(results: seq<ExecResult>) {
    forall i | 0 <= i < |results| :: results[i].rescheduleErr.None? && results[i].deleteTaskErr.None?
  }

  lemma NeverReschedulesIntoThePast<S>(
    results: seq<ExecResult>, state0: S, ts: seq<Task>, t: Table, now: Height, epochLength: u32, gasLimit: u32,
    cb: Executor<S>)
    requires ResultsOf(results, state0, ts, t, now, epochLength, gasLimit, cb)
    ensures NoProvisioningError(results)
  {
  }

  /** The state after one pass. */
  ghost function PassEnd<S>(tp: byte, cb: Executor<World<S>>, epochLength: u32, st: Chain<S>): Chain<S> {
    Left(st, AfterPass(st.records.tasks, tp, st.height, epochLength),
         StateAfter(WorldIn(st), Due(st.records.tasks, tp, st.height), cb))
  }

  ghost predicate PassResults<S>(
    results: seq<ExecResult>, tp: byte, cb: Executor<World<S>>, params: Params, st: Chain<S>)
  {
    && ResultsOf(results, WorldIn(st), Due(st.records.tasks, tp, st.height), st.records.tasks, st.height,
                 params.epochLength, params.maxGas, cb)
    && NoProvisioningError(results)
  }

  /** One pass, with its results handed to the response handler. */
  method RunPass<S>(ctx: Context<S>, tp: byte, cb: Executor<World<S>>, live: bool) returns (results: seq<ExecResult>)
    requires Sound(ctx.store) && tp != TASK_UNDEFINED
    modifies ctx`store, ctx`mem, ctx`app
    ensures Sound(ctx.store) && Rest(ctx.store) == old(Rest(ctx.store))
    ensures ChainOf(ctx) == PassEnd(tp, cb, ctx.params.epochLength, old(ChainOf(ctx)))
    ensures PassResults(results, tp, cb, ctx.params, old(ChainOf(ctx)))
  {
    ghost var st := ChainOf(ctx);
    var err;
    results, err := ExecScheduledTasks(ctx, tp, ctx.params.epochLength, cb, live);
    NeverReschedulesIntoThePast(results, WorldIn(st), Due(st.records.tasks, tp, st.height), st.records.tasks, st.height,
                                ctx.params.epochLength, ctx.params.maxGas, cb);
  }

  /** The state between the passes. */
  ghost function MidBlock<S>(env: Env<S>, epochLength: u32, st: Chain<S>): Chain<S> {
    PassEnd(TASK_VALSET_UPDATE, UpdateCall(env, st), epochLength, st).(mem := st.mem - PipeKeys(st.mem))
  }

  /** The results of a block: one for every due task of either kind. */
  ghost predicate BlockResults<S>(
    updates: seq<ExecResult>, epochs: seq<ExecResult>, env: Env<S>, params: Params, st: Chain<S>)
  {
    && PassResults(updates, TASK_VALSET_UPDATE, UpdateCall(env, st), params, st)
    && PassResults(epochs, TASK_HANDLE_EPOCH, EpochCall(env, st), params, MidBlock(env, params.epochLength, st))
    && |epochs| == |EpochsDue(st)|
    && forall i | 0 <= i < |epochs| :: epochs[i].contract == EpochsDue(st)[i].contract
  }

  // ------------------------------------------------- the calls of a block

  /** The world that the `k`-th update call of a block finds: the one before it
      was sent the report prepared for it, and what it did is kept if it
      succeeded. */
  ghost function UpdateWorld<S>(env: Env<S>, st: Chain<S>, k: nat): World<S>
    requires k <= |UpdatesDue(st)|
  {
    if k == 0 then World(st.app, st.records.delegated)
    else
      var w, c := UpdateWorld(env, st, k - 1), UpdatesDue(st)[k - 1].contract;
      var told := Prepared(env.view(w.app), c, st.height, st.time, st.mem);
      if told.Err? then w else Kept(w, env.sudo(w, st.records.caps, c, ValsetUpdateMsg(told.value)))
  }

  /** The world that the `k`-th epoch call of a block finds; the first one finds
      what the update calls have left. */
  ghost function EpochWorld<S>(env: Env<S>, st: Chain<S>, k: nat): World<S>
    requires k <= |EpochsDue(st)|
  {
    if k == 0 then UpdateWorld(env, st, |UpdatesDue(st)|)
    else
      var w, c := EpochWorld(env, st, k - 1), EpochsDue(st)[k - 1].contract;
      Kept(w, env.sudo(w, st.records.caps, c, HandleEpoch))
  }

  /** A message is sent to a contract in the world `w`: if the contract succeeds
      the world is then as it leaves it, otherwise it stays as it was and the error
      is reported. */
  ghost predicate Sent<S>(
    env: Env<S>, st: Chain<S>, w: World<S>, contract: Addr, msg: SudoMsg, w': World<S>, execErr: Option<Error>)
  {
    match env.sudo(w, st.records.caps, contract, msg)
    case Done(left) => w' == left && execErr == None
    case Failed(_, e) => w' == w && execErr == Some(e)
    case Panic(_) => w' == w && execErr == Some(Panicked)
  }

  /** The rest of a result: whose it is, the gas limit, and the height of the next
      run for a task that repeats. */
  ghost predicate Provided<S>(params: Params, st: Chain<S>, x: Task, r: ExecResult) {
    && r.contract == x.contract && r.gasLimit == params.maxGas
    && x in st.records.tasks
    && r.nextRunHeight == (if st.records.tasks[x] && params.epochLength != 0 then st.height + params.epochLength else 0)
    && r.rescheduleErr == None && r.deleteTaskErr == None
  }

  /** The contract of the `k`-th due update task was sent the report prepared for
      it in the world it found; when no report could be prepared that is its
      error. */
  ghost predicate UpdateSent<S>(env: Env<S>, params: Params, st: Chain<S>, k: nat, r: ExecResult)
    requires k < |UpdatesDue(st)|
  {
    var x, w, w' := UpdatesDue(st)[k], UpdateWorld(env, st, k), UpdateWorld(env, st, k + 1);
    var told := Prepared(env.view(w.app), x.contract, st.height, st.time, st.mem);
    && Provided(params, st, x, r)
    && (told.Ok? ==> Sent(env, st, w, x.contract, ValsetUpdateMsg(told.value), w', r.execErr))
    && (told.Err? ==> w' == w && r.execErr == Some(told.error))
  }

  /** The contract of the `k`-th due epoch task was sent the epoch message. */
  ghost predicate EpochSent<S>(env: Env<S>, params: Params, st: Chain<S>, k: nat, r: ExecResult)
    requires k < |EpochsDue(st)|
  {
    var x, w, w' := EpochsDue(st)[k], EpochWorld(env, st, k), EpochWorld(env, st, k + 1);
    Provided(params, st, x, r) && Sent(env, st, w, x.contract, HandleEpoch, w', r.execErr)
  }

  /** The calls of a block and what they leave. */
  ghost predicate CallsMade<S>(
    env: Env<S>, params: Params, st: Chain<S>, to: Chain<S>, updates: seq<ExecResult>, epochs: seq<ExecResult>)
  {
    && |updates| == |UpdatesDue(st)| && |epochs| == |EpochsDue(st)|
    && (forall k | 0 <= k < |updates| :: UpdateSent(env, params, st, k, updates[k]))
    && (forall k | 0 <= k < |epochs| :: EpochSent(env, params, st, k, epochs[k]))
    && World(to.app, to.records.delegated) == EpochWorld(env, st, |EpochsDue(st)|)
  }

  /** What the two calls do with a message, spelled out. */
  lemma UpdateCallIs<S>(env: Env<S>, st: Chain<S>, w: World<S>, c: Addr)
    ensures var told := Prepared(env.view(w.app), c, st.height, st.time, st.mem);
            var o := UpdateCall(env, st)(w, c);
            && (told.Ok? ==> o == env.sudo(w, st.records.caps, c, ValsetUpdateMsg(told.value)))
            && (told.Err? ==> Kept(w, o) == w && ErrorOf(o) == Some(told.error))
  {
  }

  lemma EpochCallIs<S>(env: Env<S>, st: Chain<S>, w: World<S>, c: Addr)
    ensures EpochCall(env, st)(w, c) == env.sudo(w, st.records.caps, c, HandleEpoch)
  {
  }

  lemma NextUpdateWorld<S>(env: Env<S>, st: Chain<S>, k: nat, next: nat)
    requires next == k + 1 <= |UpdatesDue(st)|
    ensures var w := UpdateWorld(env, st, k);
            UpdateWorld(env, st, next) == Kept(w, UpdateCall(env, st)(w, UpdatesDue(st)[k].contract))
  {
    UpdateCallIs(env, st, UpdateWorld(env, st, k), UpdatesDue(st)[k].contract);
  }

  lemma {:induction false} UpdateWorldIs<S>(
    env: Env<S>, st: Chain<S>, start: World<S>, due: seq<Task>, cb: Executor<World<S>>, k: nat)
    requires start == WorldIn(st) && due == UpdatesDue(st) && cb == UpdateCall(env, st) && k <= |due|
    ensures UpdateWorld(env, st, k) == StateAfter(start, due[..k], cb)
  {
    if k > 0 {
      var i := k - 1;
      UpdateWorldIs(env, st, start, due, cb, i);
      NextUpdateWorld(env, st, i, k);
      StateAfterMore(start, due, i, k, cb);
    }
  }

  lemma TakeAll<T>(s: seq<T>, n: nat)
    requires n == |s|
    ensures s[..n] == s
  {
  }

  lemma FirstEpochWorld<S>(env: Env<S>, st: Chain<S>)
    ensures EpochWorld(env, st, 0) == StateAfter(WorldIn(st), UpdatesDue(st), UpdateCall(env, st))
  {
    var due := UpdatesDue(st);
    var n := |due|;
    TakeAll(due, n);
    UpdateWorldIs(env, st, WorldIn(st), due, UpdateCall(env, st), n);
  }

  lemma NextEpochWorld<S>(env: Env<S>, st: Chain<S>, k: nat, next: nat)
    requires next == k + 1 <= |EpochsDue(st)|
    ensures var w := EpochWorld(env, st, k);
            EpochWorld(env, st, next) == Kept(w, EpochCall(env, st)(w, EpochsDue(st)[k].contract))
  {
    EpochCallIs(env, st, EpochWorld(env, st, k), EpochsDue(st)[k].contract);
  }

  lemma {:induction false} EpochWorldIs<S>(
    env: Env<S>, st: Chain<S>, mid: World<S>, due: seq<Task>, cb: Executor<World<S>>, k: nat)
    requires mid == EpochWorld(env, st, 0) && due == EpochsDue(st) && cb == EpochCall(env, st) && k <= |due|
    ensures EpochWorld(env, st, k) == StateAfter(mid, due[..k], cb)
  {
    if k > 0 {
      var i := k - 1;
      EpochWorldIs(env, st, mid, due, cb, i);
      NextEpochWorld(env, st, i, k);
      StateAfterMore(mid, due, i, k, cb);
    }
  }

  /** The end blocker has taken `st` to `to`. */
  ghost predicate Ended<S>(
    env: Env<S>, params: Params, st: Chain<S>, to: Chain<S>, updates: seq<ExecResult>, epochs: seq<ExecResult>)
  {
    && to == BlockEnd(env, params.epochLength, st)
    && BlockResults(updates, epochs, env, params, st)
    && CallsMade(env, params, st, to, updates, epochs)
  }

  lemma UpdateIsSent<S>(env: Env<S>, params: Params, st: Chain<S>, results: seq<ExecResult>, k: nat)
    requires PassResults(results, TASK_VALSET_UPDATE, UpdateCall(env, st), params, st) && k < |UpdatesDue(st)|
    ensures UpdateSent(env, params, st, k, results[k])
  {
    var x, w := UpdatesDue(st)[k], UpdateWorld(env, st, k);
    UpdateWorldIs(env, st, WorldIn(st), UpdatesDue(st), UpdateCall(env, st), k);
    NextUpdateWorld(env, st, k, k + 1);
    UpdateCallIs(env, st, w, x.contract);
    ResultMeans(UpdateCall(env, st)(w, x.contract), x, st.records.tasks[x], st.height, params.epochLength,
                params.maxGas);
  }

  lemma EpochIsSent<S>(env: Env<S>, params: Params, st: Chain<S>, results: seq<ExecResult>, k: nat)
    requires PassResults(results, TASK_HANDLE_EPOCH, EpochCall(env, st), params, MidBlock(env, params.epochLength, st))
    requires k < |EpochsDue(st)|
    ensures |results| == |EpochsDue(st)| && EpochSent(env, params, st, k, results[k])
  {
    var x, w, mid := EpochsDue(st)[k], EpochWorld(env, st, k), MidBlock(env, params.epochLength, st);
    OtherTypeDue(st.records.tasks, TASK_VALSET_UPDATE, TASK_HANDLE_EPOCH, st.height, params.epochLength);
    DueCharacterised(st.records.tasks, TASK_HANDLE_EPOCH, st.height);
    assert x in EpochsDue(st);
    FirstEpochWorld(env, st);
    EpochWorldIs(env, st, WorldIn(mid), EpochsDue(st), EpochCall(env, st), k);
    NextEpochWorld(env, st, k, k + 1);
    EpochCallIs(env, st, w, x.contract);
    ResultMeans(EpochCall(env, st)(w, x.contract), x, st.records.tasks[x], st.height, params.epochLength,
                params.maxGas);
  }

  lemma BlockEndWorld<S>(env: Env<S>, epochLength: u32, st: Chain<S>)
    ensures WorldIn(BlockEnd(env, epochLength, st)) == EpochWorld(env, st, |EpochsDue(st)|)
  {
    var due := EpochsDue(st);
    var n := |due|;
    TakeAll(due, n);
    FirstEpochWorld(env, st);
    EpochWorldIs(env, st, EpochWorld(env, st, 0), due, EpochCall(env, st), n);
  }

  lemma ResultsAreCalls<S>(
    env: Env<S>, params: Params, st: Chain<S>, updates: seq<ExecResult>, epochs: seq<ExecResult>)
    requires BlockResults(updates, epochs, env, params, st)
    ensures CallsMade(env, params, st, BlockEnd(env, params.epochLength, st), updates, epochs)
  {
    forall k | 0 <= k < |updates| ensures UpdateSent(env, params, st, k, updates[k]) {
      UpdateIsSent(env, params, st, updates, k);
    }
    forall k | 0 <= k < |epochs| ensures EpochSent(env, params, st, k, epochs[k]) {
      EpochIsSent(env, params, st, epochs, k);
    }
    BlockEndWorld(env, params.epochLength, st);
  }

  /** The second pass sees the epoch tasks the block started with. */
  lemma TwoPasses<S>(env: Env<S>, params: Params, st: Chain<S>, epochs: seq<ExecResult>)
    ensures PassEnd(TASK_HANDLE_EPOCH, EpochCall(env, st), params.epochLength, MidBlock(env, params.epochLength, st))
            == BlockEnd(env, params.epochLength, st)
    ensures var mid := MidBlock(env, params.epochLength, st);
            PassResults(epochs, TASK_HANDLE_EPOCH, EpochCall(env, st), params, mid) ==>
              && |epochs| == |EpochsDue(st)|
              && forall i | 0 <= i < |epochs| :: epochs[i].contract == EpochsDue(st)[i].contract
  {
    OtherTypeDue(st.records.tasks, TASK_VALSET_UPDATE, TASK_HANDLE_EPOCH, st.height, params.epochLength);
  }

  /** The two passes, the clearing between them, and what they report make up an
      end blocker. */
  lemma PassesEndBlock<S>(
    env: Env<S>, params: Params, st: Chain<S>, mid: Chain<S>, to: Chain<S>, updates: seq<ExecResult>,
    epochs: seq<ExecResult>)
    requires PassResults(updates, TASK_VALSET_UPDATE, UpdateCall(env, st), params, st)
    requires mid == MidBlock(env, params.epochLength, st)
    requires PassResults(epochs, TASK_HANDLE_EPOCH, EpochCall(env, st), params, mid)
    requires to == PassEnd(TASK_HANDLE_EPOCH, EpochCall(env, st), params.epochLength, mid)
    ensures Ended(env, params, st, to, updates, epochs)
  {
    TwoPasses(env, params, st, epochs);
    ResultsAreCalls(env, params, st, updates, epochs);
  }

  /** Update calls, then the pipe is emptied, then epoch calls. */
  method EndBlocker<S>(ctx: Context<S>, env: Env<S>, live: bool)
    returns (updates: seq<ExecResult>, epochs: seq<ExecResult>)
    requires Sound(ctx.store)
    modifies ctx`store, ctx`mem, ctx`app
    ensures Sound(ctx.store) && Rest(ctx.store) == old(Rest(ctx.store))
    ensures Ended(env, ctx.params, old(ChainOf(ctx)), ChainOf(ctx), updates, epochs)
  {
    ghost var st := ChainOf(ctx);
    var caps := LoadAmounts(ctx.store, CAP);
    var updateCall, epochCall := ValsetCallback(env, caps, ctx.height, ctx.time, ctx.mem), EpochCallback(env, caps);
    assert updateCall == UpdateCall(env, st) && epochCall == EpochCall(env, st);
    updates := RunPass(ctx, TASK_VALSET_UPDATE, updateCall, live);
    ClearPipedValsetOperations(ctx);
    ghost var mid := ChainOf(ctx);
    epochs := RunPass(ctx, TASK_HANDLE_EPOCH, epochCall, live);
    PassesEndBlock(env, ctx.params, st, mid, ChainOf(ctx), updates, epochs);
  }
}
