/** The governance message that sets a contract's cap limit and keeps its epoch
    schedule in step. */
module MsgServer {
  import opened Bytes
  import opened Types
  import opened Keys
  import opened Scheduler
  import opened SchedulerKeeper
  import opened Amounts
  import opened CapKeeper

  datatype MsgSetVirtualStakingMaxCap = MsgSetVirtualStakingMaxCap(
    authority: Bytes,
    contract: Bytes,
    maxCap: Coin)

  /** What the handler needs from outside: the configured authority, the staking
      denomination, the address decoder, and which addresses are contracts. */
  datatype Deps = Deps(
    authority: Bytes,
    bondDenom: string,
    fromBech32: Bytes -> Option<Addr>,
    hasContractInfo: Addr -> bool)

  function ValidateBasic(deps: Deps, req: MsgSetVirtualStakingMaxCap): Result<()> {
    if deps.fromBech32(req.authority).None? || deps.fromBech32(req.contract).None? then Err(InvalidRequest)
    else if req.maxCap.amount < 0 then Err(InvalidCoins)
    else Ok(())
  }

  /** Schedule a repeating epoch task one epoch ahead. */
  method ScheduleRegularRebalanceTask<S>(ctx: Context<S>, deps: Deps, contract: Addr) returns (r: Result<()>)
    requires WellFormed(ctx.store)
    modifies ctx`store
    ensures WellFormed(ctx.store) && Others(ctx.store) == old(Others(ctx.store))
    ensures r == if deps.hasContractInfo(contract) then Ok(()) else Err(Unknown)
    ensures Tasks(ctx.store) ==
            if r.Ok? then Repeating(old(Tasks(ctx.store)), EpochAhead(ctx.height, ctx.params.epochLength, contract))
            else old(Tasks(ctx.store))
  {
    if !deps.hasContractInfo(contract) {
      return Err(Unknown);
    }
    var nextExecBlock := ctx.height + ctx.params.epochLength;
    r := ScheduleRepeatingTask(ctx, TASK_HANDLE_EPOCH, contract, nextExecBlock);
  }

  function EpochAhead(height: Height, epochLength: u32, contract: Addr): Task {
    Task(TASK_HANDLE_EPOCH, height + epochLength, contract)
  }

  /** The epoch schedule after a new cap: the first cap starts a repeating task,
      later ones ask for an extra call now, and a zero cap stops the rest. */
  ghost function EpochSchedule(t: Table, c: Addr, amount: int, height: Height, epochLength: u32): Table {
    if !SomeTask(t, TASK_HANDLE_EPOCH, c, true) then Repeating(t, EpochAhead(height, epochLength, c))
    else
      OneShot(if amount == 0 then WithoutContract(t, TASK_HANDLE_EPOCH, c) else t, Task(TASK_HANDLE_EPOCH, height, c))
  }

  /** Why the message is refused, if it is. */
  ghost function Verdict(deps: Deps, params: Params, records: Records, req: MsgSetVirtualStakingMaxCap): Result<()> {
    var basic := ValidateBasic(deps, req);
    if basic.Err? then basic
    else if deps.authority != req.authority then Err(InvalidSigner)
    else
      var acc := deps.fromBech32(req.contract).value;
      var cap := CapDecision(records.caps, deps.bondDenom, params, acc, req.maxCap);
      if cap.Err? then cap
      else if !SomeTask(records.tasks, TASK_HANDLE_EPOCH, acc, true) && !deps.hasContractInfo(acc) then Err(Unknown)
      else Ok(())
  }

  lemma SomeTaskAt(t: Table, tp: byte, c: Addr, repeat: bool)
    ensures SomeTask(t, tp, c, repeat) <==> exists h: u64 :: Task(tp, h, c) in t && t[Task(tp, h, c)] == repeat
  {
    if x :| x in t && x.tp == tp && x.contract == c && t[x] == repeat {
      assert x == Task(tp, x.height, c);
    }
  }

  /** A message is accepted if and only if both addresses can be decoded, it
      comes from the configured authority, the amount is a staking coin that is
      not negative, all caps with the new one stay within the parameter, and the
      address is a contract or has its repeating epoch task already. */
  lemma AcceptedIff(deps: Deps, params: Params, records: Records, req: MsgSetVirtualStakingMaxCap)
    ensures Verdict(deps, params, records, req).Ok? <==>
            && deps.fromBech32(req.authority).Some?
            && deps.fromBech32(req.contract).Some?
            && req.authority == deps.authority
            && req.maxCap.amount >= 0
            && req.maxCap.denom == deps.bondDenom
            && var c := deps.fromBech32(req.contract).value;
            && Sum(records.caps[c := req.maxCap.amount]) <= params.totalMaxCap.amount
            && (|| deps.hasContractInfo(c)
                || exists h: u64 :: var x := Task(TASK_HANDLE_EPOCH, h, c); x in records.tasks && records.tasks[x])
  {
    if deps.fromBech32(req.contract).Some? {
      SomeTaskAt(records.tasks, TASK_HANDLE_EPOCH, deps.fromBech32(req.contract).value, true);
    }
  }

  /** Why it is refused: the first of these reasons. */
  lemma RefusedBecause(deps: Deps, params: Params, records: Records, req: MsgSetVirtualStakingMaxCap)
    requires Verdict(deps, params, records, req).Err?
    ensures var contract := deps.fromBech32(req.contract);
            Verdict(deps, params, records, req).error ==
            if deps.fromBech32(req.authority).None? || contract.None? then InvalidRequest
            else if req.maxCap.amount < 0 then InvalidCoins
            else if req.authority != deps.authority then InvalidSigner
            else if req.maxCap.denom != deps.bondDenom then InvalidCoins
            else if Sum(records.caps[contract.value := req.maxCap.amount]) > params.totalMaxCap.amount then Invalid
            else Unknown
  {
  }

  /** The records after an accepted message. */
  ghost function WithNewCap(records: Records, c: Addr, amount: int, height: Height, epochLength: u32): Records {
    records.(caps := records.caps[c := amount],
             tasks := EpochSchedule(records.tasks, c, amount, height, epochLength))
  }

  /** What an accepted message does to caps and tasks: without a repeating epoch
      task the contract gets one an epoch ahead; otherwise it gets a single call
      at this height, and with a cap of zero loses all its other epoch tasks. */
  lemma AcceptedChanges(was: Records, c: Addr, amount: int, height: Height, epochLength: u32, x: Task)
    ensures var now := WithNewCap(was, c, amount, height, epochLength);
            var had := exists h: u64 :: var y := Task(TASK_HANDLE_EPOCH, h, c); y in was.tasks && was.tasks[y];
            var next, single := Task(TASK_HANDLE_EPOCH, height + epochLength, c), Task(TASK_HANDLE_EPOCH, height, c);
            && now.delegated == was.delegated
            && now.caps == was.caps[c := amount]
            && (!had ==> now.tasks == was.tasks[next := true])
            && (had && amount != 0 ==>
                  now.tasks == if single in was.tasks then was.tasks else was.tasks[single := false])
            && (had && amount == 0 ==>
                  && (x in now.tasks <==>
                        x == single || (x in was.tasks && !(x.tp == TASK_HANDLE_EPOCH && x.contract == c)))
                  && (x in now.tasks ==> now.tasks[x] == (x != single && was.tasks[x])))
  {
    SomeTaskAt(was.tasks, TASK_HANDLE_EPOCH, c, true);
  }

  /** The schedule part of the handler. */
  method UpdateSchedule<S>(ctx: Context<S>, deps: Deps, acc: Addr, zero: bool, live: bool) returns (r: Result<()>)
    requires WellFormed(ctx.store)
    modifies ctx`store
    ensures WellFormed(ctx.store) && Others(ctx.store) == old(Others(ctx.store))
    ensures r == if !SomeTask(old(Tasks(ctx.store)), TASK_HANDLE_EPOCH, acc, true) && !deps.hasContractInfo(acc)
                 then Err(Unknown) else Ok(())
    ensures Tasks(ctx.store) ==
            if r.Ok?
            then EpochSchedule(old(Tasks(ctx.store)), acc, if zero then 0 else 1, ctx.height, ctx.params.epochLength)
            else old(Tasks(ctx.store))
  {
    var scheduled := HasScheduledTask(ctx, TASK_HANDLE_EPOCH, acc, true);
    if !scheduled {
      r := ScheduleRegularRebalanceTask(ctx, deps, acc);
      return;
    }
    if zero {
      r := DeleteAllScheduledTasks(ctx, TASK_HANDLE_EPOCH, acc, live);
    }
    r := ScheduleOneShotTask(ctx, TASK_HANDLE_EPOCH, acc, ctx.height);
  }

  method SetVirtualStakingMaxCap<S>(ctx: Context<S>, deps: Deps, req: MsgSetVirtualStakingMaxCap, live: bool)
    returns (r: Result<()>)
    requires Sound(ctx.store)
    modifies ctx`store
    ensures Sound(ctx.store)
    ensures r == Verdict(deps, ctx.params, old(RecordsOf(ctx.store)), req)
    ensures r.Ok? <==>
            && deps.fromBech32(req.authority).Some?
            && deps.fromBech32(req.contract).Some?
            && req.authority == deps.authority
            && req.maxCap.amount >= 0
            && req.maxCap.denom == deps.bondDenom
            && var c, was := deps.fromBech32(req.contract).value, old(RecordsOf(ctx.store));
            && Sum(was.caps[c := req.maxCap.amount]) <= ctx.params.totalMaxCap.amount
            && (|| deps.hasContractInfo(c)
                || exists h: u64 :: var x := Task(TASK_HANDLE_EPOCH, h, c); x in was.tasks && was.tasks[x])
    ensures r.Ok? ==>
      RecordsOf(ctx.store) == WithNewCap(old(RecordsOf(ctx.store)), deps.fromBech32(req.contract).value,
                                         req.maxCap.amount, ctx.height, ctx.params.epochLength)
  {
    AcceptedIff(deps, ctx.params, RecordsOf(ctx.store), req);
    var basic := ValidateBasic(deps, req);
    if basic.Err? { return basic; }
    if deps.authority != req.authority { return Err(InvalidSigner); }
    var acc := deps.fromBech32(req.contract).value;
    r := SetMaxCapLimit(ctx, deps.bondDenom, acc, req.maxCap);
    if r.Err? { return; }
    ghost var before := ctx.store;
    r := UpdateSchedule(ctx, deps, acc, req.maxCap.amount == 0, live);
    TasksApartFromAmounts(before, ctx.store);
  }

  /** A message runs in a branch of the state that is kept only on success. */
  method DeliverMsg<S>(ctx: Context<S>, deps: Deps, req: MsgSetVirtualStakingMaxCap, live: bool) returns (r: Result<()>)
    requires Sound(ctx.store)
    modifies ctx`store, ctx`mem, ctx`app
    ensures Sound(ctx.store) && ctx.mem == old(ctx.mem) && ctx.app == old(ctx.app)
    ensures r == Verdict(deps, ctx.params, old(RecordsOf(ctx.store)), req)
    ensures r.Ok? <==>
            && deps.fromBech32(req.authority).Some?
            && deps.fromBech32(req.contract).Some?
            && req.authority == deps.authority
            && req.maxCap.amount >= 0
            && req.maxCap.denom == deps.bondDenom
            && var c, was := deps.fromBech32(req.contract).value, old(RecordsOf(ctx.store));
            && Sum(was.caps[c := req.maxCap.amount]) <= ctx.params.totalMaxCap.amount
            && (|| deps.hasContractInfo(c)
                || exists h: u64 :: var x := Task(TASK_HANDLE_EPOCH, h, c); x in was.tasks && was.tasks[x])
    ensures RecordsOf(ctx.store) ==
            if r.Ok? then WithNewCap(old(RecordsOf(ctx.store)), deps.fromBech32(req.contract).value,
                                     req.maxCap.amount, ctx.height, ctx.params.epochLength)
            else old(RecordsOf(ctx.store))
  {
    var cached := ctx.CacheContext();
    r := SetVirtualStakingMaxCap(cached, deps, req, live);
    if r.Ok? {
      ctx.Commit(cached);
    }
  }
}
