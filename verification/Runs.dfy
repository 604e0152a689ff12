/** Whole runs of the module: blocks made of events, governance messages and
    other activity, an end blocker in every block. */
module Runs {
  import opened Bytes
  import opened Types
  import opened Keys
  import opened Scheduler
  import opened SchedulerKeeper
  import opened Amounts
  import opened Valset
  import opened ValsetKeeper
  import opened MsgServer
  import opened EndBlock

  datatype Config<!S> = Config(env: Env<S>, deps: Deps, params: Params)

  /** What can happen between end blockers: an event is piped, a cap message
      arrives, or something else moves delegations and the application. */
  datatype Step<S> =
    | Pipe(event: Event)
    | SetCap(req: MsgSetVirtualStakingMaxCap)
    | Other(delegated: AmountTable, app: S)

  /** A block: the steps before and after the module's end blocker, and the time
      of the next block. */
  datatype Block<S> = Block(pre: seq<Step<S>>, post: seq<Step<S>>, nextTime: i64)

  ghost function Apply<S>(cfg: Config<S>, st: Chain<S>, step: Step<S>): Chain<S> {
    match step
    case Pipe(e) =>
      if Writable(e) then
        st.(mem := st.mem[EventKey(e) := []],
            records := st.records.(tasks := Notified(st.records.tasks, Enabled(st.records.caps), st.height)))
      else st
    case SetCap(req) =>
      if Verdict(cfg.deps, cfg.params, st.records, req).Ok? then
        st.(records := WithNewCap(st.records, cfg.deps.fromBech32(req.contract).value, req.maxCap.amount,
                                  st.height, cfg.params.epochLength))
      else st
    case Other(delegated, app) =>
      st.(records := st.records.(delegated := delegated), app := app)
  }

  ghost function After<S>(cfg: Config<S>, st: Chain<S>, steps: seq<Step<S>>): Chain<S> {
    if steps == [] then st else Apply(cfg, After(cfg, st, steps[..|steps| - 1]), steps[|steps| - 1])
  }

  /** A cap message is accepted under these conditions and then moves the records
      as `MsgServer.AcceptedChanges` says; any other, for instance one from
      another signer, leaves the whole state as it was. */
  lemma CapMessage<S>(cfg: Config<S>, st: Chain<S>, req: MsgSetVirtualStakingMaxCap)
    ensures var accepted :=
              && cfg.deps.fromBech32(req.authority).Some?
              && cfg.deps.fromBech32(req.contract).Some?
              && req.authority == cfg.deps.authority
              && req.maxCap.amount >= 0
              && req.maxCap.denom == cfg.deps.bondDenom
              && var c := cfg.deps.fromBech32(req.contract).value;
              && Sum(st.records.caps[c := req.maxCap.amount]) <= cfg.params.totalMaxCap.amount
              && (|| cfg.deps.hasContractInfo(c)
                  || exists h: u64 ::
                       var x := Task(TASK_HANDLE_EPOCH, h, c); x in st.records.tasks && st.records.tasks[x]);
            Apply(cfg, st, SetCap(req)) ==
            if accepted
            then st.(records := WithNewCap(st.records, cfg.deps.fromBech32(req.contract).value, req.maxCap.amount,
                                           st.height, cfg.params.epochLength))
            else st
  {
    AcceptedIff(cfg.deps, cfg.params, st.records, req);
  }

  lemma {:induction false} SameHeight<S>(cfg: Config<S>, st: Chain<S>, steps: seq<Step<S>>)
    ensures After(cfg, st, steps).height == st.height && After(cfg, st, steps).time == st.time
  {
    if steps != [] { SameHeight(cfg, st, steps[..|steps| - 1]); }
  }

  /** The state the end blocker of a block starts from. */
  ghost function Collected<S>(cfg: Config<S>, st: Chain<S>, b: Block<S>): Chain<S> {
    After(cfg, st, b.pre)
  }

  /** The state at the end of a block. */
  ghost function Closed<S>(cfg: Config<S>, st: Chain<S>, b: Block<S>): Chain<S> {
    After(cfg, BlockEnd(cfg.env, cfg.params.epochLength, Collected(cfg, st, b)), b.post)
  }

  const LAST_HEIGHT: Height := 0x7FFF_FFFF_FFFF_FFFF

  ghost function Next<S>(cfg: Config<S>, st: Chain<S>, b: Block<S>): Chain<S>
    requires st.height < LAST_HEIGHT
  {
    Closed(cfg, st, b).(height := st.height + 1, time := b.nextTime)
  }

  /** The state after a run of blocks. */
  ghost function Run<S>(cfg: Config<S>, st: Chain<S>, blocks: seq<Block<S>>): (r: Chain<S>)
    requires st.height + |blocks| <= LAST_HEIGHT
    ensures r.height == st.height + |blocks|
    decreases |blocks|
  {
    if blocks == [] then st else Next(cfg, Run(cfg, st, blocks[..|blocks| - 1]), blocks[|blocks| - 1])
  }

  // ------------------------------------------- the operations do these steps

  /** The module's own operations, run on a context, do what the steps say. */
  method Execute<S>(ctx: Context<S>, cfg: Config<S>, step: Step<S>, live: bool)
    requires Sound(ctx.store) && ctx.params == cfg.params
    requires !step.Other?
    modifies ctx`store, ctx`mem, ctx`app
    ensures Sound(ctx.store)
    ensures ChainOf(ctx) == Apply(cfg, old(ChainOf(ctx)), step)
  {
    if step.Pipe? {
      var _ := SendAsync(ctx, step.event.op, step.event.val, step.event.info);
    } else {
      var _ := DeliverMsg(ctx, cfg.deps, step.req, live);
    }
  }

  /** ... any number of them in a row ... */
  method ExecuteSteps<S>(ctx: Context<S>, cfg: Config<S>, steps: seq<Step<S>>, live: bool)
    requires Sound(ctx.store) && ctx.params == cfg.params
    requires forall i | 0 <= i < |steps| :: !steps[i].Other?
    modifies ctx`store, ctx`mem, ctx`app
    ensures Sound(ctx.store)
    ensures ChainOf(ctx) == After(cfg, old(ChainOf(ctx)), steps)
  {
    if steps != [] {
      ExecuteSteps(ctx, cfg, steps[..|steps| - 1], live);
      Execute(ctx, cfg, steps[|steps| - 1], live);
    }
  }

  /** ... and with the end blocker behind them. */
  method ExecuteBlock<S>(ctx: Context<S>, cfg: Config<S>, steps: seq<Step<S>>, live: bool)
    returns (updates: seq<ExecResult>, epochs: seq<ExecResult>)
    requires Sound(ctx.store) && ctx.params == cfg.params
    requires forall i | 0 <= i < |steps| :: !steps[i].Other?
    modifies ctx`store, ctx`mem, ctx`app
    ensures Sound(ctx.store)
    ensures Ended(cfg.env, cfg.params, After(cfg, old(ChainOf(ctx)), steps), ChainOf(ctx), updates, epochs)
  {
    ghost var st := After(cfg, ChainOf(ctx), steps);
    ExecuteSteps(ctx, cfg, steps, live);
    updates, epochs := ExecuteEnd(ctx, cfg, st, live);
  }

  method ExecuteEnd<S>(ctx: Context<S>, cfg: Config<S>, ghost st: Chain<S>, live: bool)
    returns (updates: seq<ExecResult>, epochs: seq<ExecResult>)
    requires Sound(ctx.store) && ctx.params == cfg.params && ChainOf(ctx) == st
    modifies ctx`store, ctx`mem, ctx`app
    ensures Sound(ctx.store)
    ensures Ended(cfg.env, cfg.params, st, ChainOf(ctx), updates, epochs)
  {
    updates, epochs := EndBlocker(ctx, cfg.env, live);
  }
}
