/** Every event reaches every contract that could stake when it happened. */
module Delivery {
  import opened Bytes
  import opened Types
  import opened Order
  import opened Keys
  import opened Scheduler
  import opened SchedulerKeeper
  import opened Amounts
  import opened SlashCodec
  import opened Valset
  import opened ValsetKeeper
  import opened MsgServer
  import opened EndBlock
  import opened Runs
  import Decimal

  // ---------------------------------------------------- effect on update tasks

  /** The pending update tasks. */
  function Updates(t: Table): set<Task> {
    set x | x in t && x.tp == TASK_VALSET_UPDATE
  }

  /** Update tasks are never due in the future and never repeat. */
  ghost predicate UpdatesArePending<S>(st: Chain<S>) {
    forall x | x in st.records.tasks && x.tp == TASK_VALSET_UPDATE :: x.height <= st.height && !st.records.tasks[x]
  }

  lemma EpochScheduleUpdates(t: Table, c: Addr, amount: int, height: Height, epochLength: u32)
    ensures var t' := EpochSchedule(t, c, amount, height, epochLength);
            && (forall x: Task | x.tp == TASK_VALSET_UPDATE :: x in t' <==> x in t)
            && (forall x: Task | x.tp == TASK_VALSET_UPDATE && x in t :: t'[x] == t[x])
  {
  }

  /** A step adds update tasks at the current height, one for every enabled
      contract, exactly when it pipes an event, and removes none. */
  lemma StepUpdates<S>(cfg: Config<S>, st: Chain<S>, step: Step<S>)
    ensures var t, t' := st.records.tasks, Apply(cfg, st, step).records.tasks;
            && (forall x: Task | x.tp == TASK_VALSET_UPDATE ::
                  x in t' <==> x in t || (step.Pipe? && Writable(step.event) && x.height == st.height
                                          && Amount(st.records.caps, x.contract) > 0))
            && (forall x: Task | x.tp == TASK_VALSET_UPDATE && x in t :: t'[x] == t[x])
            && (forall x: Task | x.tp == TASK_VALSET_UPDATE && x in t' && x !in t :: !t'[x])
  {
    if step.SetCap? && Verdict(cfg.deps, cfg.params, st.records, step.req).Ok? {
      EpochScheduleUpdates(st.records.tasks, cfg.deps.fromBech32(step.req.contract).value, step.req.maxCap.amount,
                           st.height, cfg.params.epochLength);
    }
  }

  /** The end blocker leaves no update task behind. */
  lemma BlockEndUpdates<S>(env: Env<S>, epochLength: u32, st: Chain<S>)
    requires UpdatesArePending(st)
    ensures Updates(BlockEnd(env, epochLength, st).records.tasks) == {}
  {
    var t := st.records.tasks;
    var t1 := AfterPass(t, TASK_VALSET_UPDATE, st.height, epochLength);
    forall x: Task | x.tp == TASK_VALSET_UPDATE ensures x !in t1 {
      AfterPassCharacterised(t, TASK_VALSET_UPDATE, st.height, epochLength, x);
    }
    OtherTypeDue(t1, TASK_HANDLE_EPOCH, TASK_VALSET_UPDATE, st.height, epochLength);
  }

  lemma StepKeepsPending<S>(cfg: Config<S>, st: Chain<S>, step: Step<S>)
    requires UpdatesArePending(st)
    ensures UpdatesArePending(Apply(cfg, st, step))
  {
    StepUpdates(cfg, st, step);
  }

  lemma {:induction false} StepsKeepPending<S>(cfg: Config<S>, st: Chain<S>, steps: seq<Step<S>>)
    requires UpdatesArePending(st)
    ensures UpdatesArePending(After(cfg, st, steps))
  {
    if steps != [] {
      var init := steps[..|steps| - 1];
      StepsKeepPending(cfg, st, init);
      StepKeepsPending(cfg, After(cfg, st, init), steps[|steps| - 1]);
    }
  }

  lemma NoUpdatesPending<S>(st: Chain<S>)
    requires Updates(st.records.tasks) == {}
    ensures UpdatesArePending(st)
  {
    assert forall x :: x in st.records.tasks && x.tp == TASK_VALSET_UPDATE ==> x in Updates(st.records.tasks);
  }

  // ------------------------------------------------------------- what is owed

  /** The event waits in the pipe and the contract has a pending update task. */
  ghost predicate Owed<S>(st: Chain<S>, e: Event, c: Addr) {
    && EventKey(e) in st.mem
    && exists h: u64 :: h <= st.height && Task(TASK_VALSET_UPDATE, h, c) in st.records.tasks
  }

  /** Piping an event makes it owed to every contract with a positive cap. */
  lemma PipingOwes<S>(cfg: Config<S>, st: Chain<S>, e: Event, c: Addr)
    requires Writable(e) && Amount(st.records.caps, c) > 0
    ensures Owed(Apply(cfg, st, Pipe(e)), e, c)
  {
    StepUpdates(cfg, st, Pipe(e));
    assert Task(TASK_VALSET_UPDATE, st.height, c) in Apply(cfg, st, Pipe(e)).records.tasks;
  }

  /** Nothing but an end blocker settles it. */
  lemma StepKeepsOwed<S>(cfg: Config<S>, st: Chain<S>, step: Step<S>, e: Event, c: Addr)
    requires Owed(st, e, c)
    ensures Owed(Apply(cfg, st, step), e, c)
  {
  }

  lemma {:induction false} StepsKeepOwed<S>(cfg: Config<S>, st: Chain<S>, steps: seq<Step<S>>, e: Event, c: Addr)
    requires Owed(st, e, c)
    ensures Owed(After(cfg, st, steps), e, c)
  {
    if steps != [] {
      var init := steps[..|steps| - 1];
      StepsKeepOwed(cfg, st, init, e, c);
      StepKeepsOwed(cfg, After(cfg, st, init), steps[|steps| - 1], e, c);
    }
  }

  /** From the step that pipes the event to the end of the steps. */
  lemma {:induction false} OwedAfter<S>(cfg: Config<S>, st: Chain<S>, steps: seq<Step<S>>, j: nat, e: Event, c: Addr)
    requires j < |steps| && steps[j] == Pipe(e) && Writable(e)
    requires Amount(After(cfg, st, steps[..j]).records.caps, c) > 0
    ensures Owed(After(cfg, st, steps), e, c)
    decreases |steps|
  {
    var init, last := steps[..|steps| - 1], steps[|steps| - 1];
    if j == |steps| - 1 {
      PipingOwes(cfg, After(cfg, st, init), e, c);
    } else {
      assert init[..j] == steps[..j];
      OwedAfter(cfg, st, init, j, e, c);
      StepKeepsOwed(cfg, After(cfg, st, init), last, e, c);
    }
  }

  // ----------------------------------------------------------------- delivery

  /** The contract is called at the end of the block, with the event in the pipe
      the report is made from, and the event is gone afterwards. */
  ghost predicate Delivered<S>(cfg: Config<S>, st: Chain<S>, e: Event, c: Addr) {
    && EventKey(e) in PipeKeys(st.mem)
    && (exists k :: 0 <= k < |UpdatesDue(st)| && UpdatesDue(st)[k].contract == c)
    && PipeKeys(BlockEnd(cfg.env, cfg.params.epochLength, st).mem) == {}
  }

  lemma PipeCleared(mem: Kv, e: Event)
    ensures PipeKeys(mem - PipeKeys(mem)) == {}
    ensures EventKey(e) in mem ==> EventKey(e) in PipeKeys(mem)
  {
    assert PIPED_VALSET_PREFIX <= EventKey(e);
  }

  lemma TaskIsCalled<S>(st: Chain<S>, x: Task)
    requires x in st.records.tasks && x.tp == TASK_VALSET_UPDATE && x.height <= st.height
    ensures exists k :: 0 <= k < |UpdatesDue(st)| && UpdatesDue(st)[k].contract == x.contract
  {
    DueCharacterised(st.records.tasks, TASK_VALSET_UPDATE, st.height);
    assert x in UpdatesDue(st);
    var k :| 0 <= k < |UpdatesDue(st)| && UpdatesDue(st)[k] == x;
  }

  lemma OwedIsDelivered<S>(cfg: Config<S>, st: Chain<S>, e: Event, c: Addr)
    requires Owed(st, e, c)
    ensures Delivered(cfg, st, e, c)
  {
    var h: u64 :| h <= st.height && Task(TASK_VALSET_UPDATE, h, c) in st.records.tasks;
    TaskIsCalled(st, Task(TASK_VALSET_UPDATE, h, c));
    PipeCleared(st.mem, e);
  }

  /** From any state: an event piped before the end blocker of a block is
      delivered by it. */
  lemma DeliveredInBlock<S>(cfg: Config<S>, at: Chain<S>, b: Block<S>, j: nat, e: Event, c: Addr)
    requires j < |b.pre| && b.pre[j] == Pipe(e) && Writable(e)
    requires Amount(After(cfg, at, b.pre[..j]).records.caps, c) > 0
    ensures Delivered(cfg, Collected(cfg, at, b), e, c)
  {
    OwedAfter(cfg, at, b.pre, j, e, c);
    OwedIsDelivered(cfg, Collected(cfg, at, b), e, c);
  }

  /** The state behind the end blocker of a block. */
  ghost function Ending<S>(cfg: Config<S>, at: Chain<S>, b: Block<S>): Chain<S> {
    BlockEnd(cfg.env, cfg.params.epochLength, Collected(cfg, at, b))
  }

  lemma OwedInNextBlock<S>(cfg: Config<S>, at: Chain<S>, b: Block<S>, next: Block<S>, j: nat, e: Event, c: Addr)
    requires at.height < LAST_HEIGHT
    requires j < |b.post| && b.post[j] == Pipe(e) && Writable(e)
    requires Amount(After(cfg, Ending(cfg, at, b), b.post[..j]).records.caps, c) > 0
    ensures Owed(Collected(cfg, Next(cfg, at, b), next), e, c)
  {
    var end := Ending(cfg, at, b);
    OwedAfter(cfg, end, b.post, j, e, c);
    SameHeight(cfg, at, b.pre);
    SameHeight(cfg, end, b.post);
    var st := Next(cfg, at, b);
    var h: u64 :| h <= at.height && Task(TASK_VALSET_UPDATE, h, c) in st.records.tasks;
    assert Owed(st, e, c);
    StepsKeepOwed(cfg, st, next.pre, e, c);
  }

  /** An event piped after the end blocker is delivered by the next one. */
  lemma DeliveredInNextBlock<S>(cfg: Config<S>, at: Chain<S>, b: Block<S>, next: Block<S>, j: nat, e: Event, c: Addr)
    requires at.height < LAST_HEIGHT
    requires j < |b.post| && b.post[j] == Pipe(e) && Writable(e)
    requires Amount(After(cfg, Ending(cfg, at, b), b.post[..j]).records.caps, c) > 0
    ensures Delivered(cfg, Collected(cfg, Next(cfg, at, b), next), e, c)
  {
    OwedInNextBlock(cfg, at, b, next, j, e, c);
    OwedIsDelivered(cfg, Collected(cfg, Next(cfg, at, b), next), e, c);
  }

  // --------------------------------------------- exactly once in every block

  /** No events after the end blocker: the module comes last in the block. */
  ghost predicate QuietAfter<S>(b: Block<S>) {
    forall i | 0 <= i < |b.post| :: !b.post[i].Pipe?
  }

  lemma {:induction false} QuietStepsAddNone<S>(cfg: Config<S>, st: Chain<S>, steps: seq<Step<S>>)
    requires forall i | 0 <= i < |steps| :: !steps[i].Pipe?
    ensures Updates(After(cfg, st, steps).records.tasks) == Updates(st.records.tasks)
    ensures After(cfg, st, steps).mem == st.mem
  {
    if steps != [] {
      var init := steps[..|steps| - 1];
      QuietStepsAddNone(cfg, st, init);
      StepUpdates(cfg, After(cfg, st, init), steps[|steps| - 1]);
    }
  }

  /** Nothing waits: no update task, and an empty pipe. */
  ghost predicate Settled<S>(st: Chain<S>) {
    Updates(st.records.tasks) == {} && PipeKeys(st.mem) == {}
  }

  lemma BlockSettles<S>(cfg: Config<S>, st: Chain<S>, b: Block<S>)
    requires Settled(st) && st.height < LAST_HEIGHT && QuietAfter(b)
    ensures Settled(Next(cfg, st, b))
  {
    NoUpdatesPending(st);
    StepsKeepPending(cfg, st, b.pre);
    BlockEndUpdates(cfg.env, cfg.params.epochLength, Collected(cfg, st, b));
    QuietStepsAddNone(cfg, BlockEnd(cfg.env, cfg.params.epochLength, Collected(cfg, st, b)), b.post);
  }

  lemma {:induction false} RunSettles<S>(cfg: Config<S>, st: Chain<S>, blocks: seq<Block<S>>)
    requires Settled(st) && st.height + |blocks| <= LAST_HEIGHT
    requires forall i | 0 <= i < |blocks| :: QuietAfter(blocks[i])
    ensures Settled(Run(cfg, st, blocks))
    decreases |blocks|
  {
    if blocks != [] {
      var init := blocks[..|blocks| - 1];
      RunSettles(cfg, st, init);
      BlockSettles(cfg, Run(cfg, st, init), blocks[|blocks| - 1]);
    }
  }

  /** Some step pipes an event while the contract is enabled. */
  ghost predicate NotifiedBy<S>(cfg: Config<S>, st: Chain<S>, steps: seq<Step<S>>, c: Addr) {
    exists j :: 0 <= j < |steps| && steps[j].Pipe? && Writable(steps[j].event)
                && Amount(After(cfg, st, steps[..j]).records.caps, c) > 0
  }

  /** Steps add one update task at the current height for every contract that
      was notified in them. */
  lemma {:induction false} UpdatesAfter<S>(cfg: Config<S>, st: Chain<S>, steps: seq<Step<S>>, x: Task)
    requires x.tp == TASK_VALSET_UPDATE
    ensures x in After(cfg, st, steps).records.tasks <==>
            x in st.records.tasks || (x.height == st.height && NotifiedBy(cfg, st, steps, x.contract))
  {
    if steps != [] {
      var init, last := steps[..|steps| - 1], steps[|steps| - 1];
      UpdatesAfter(cfg, st, init, x);
      StepUpdates(cfg, After(cfg, st, init), last);
      SameHeight(cfg, st, init);
      NotifiedByOneMore(cfg, st, steps, x.contract);
    }
  }

  lemma NotifiedByOneMore<S>(cfg: Config<S>, st: Chain<S>, steps: seq<Step<S>>, c: Addr)
    requires steps != []
    ensures var init, last := steps[..|steps| - 1], steps[|steps| - 1];
            NotifiedBy(cfg, st, steps, c) <==>
              NotifiedBy(cfg, st, init, c)
              || (last.Pipe? && Writable(last.event) && Amount(After(cfg, st, init).records.caps, c) > 0)
  {
    var init := steps[..|steps| - 1];
    if j: int :| 0 <= j < |init| && init[j].Pipe? && Writable(init[j].event)
                 && Amount(After(cfg, st, init[..j]).records.caps, c) > 0
    {
      assert init[..j] == steps[..j] && init[j] == steps[j];
    }
    if j: int :| 0 <= j < |steps| && steps[j].Pipe? && Writable(steps[j].event)
                 && Amount(After(cfg, st, steps[..j]).records.caps, c) > 0
    {
      if j < |init| {
        assert init[..j] == steps[..j] && init[j] == steps[j];
      }
    }
  }

  /** The state a run has reached before its `i`-th block. */
  ghost function At<S>(cfg: Config<S>, st: Chain<S>, blocks: seq<Block<S>>, i: nat): (r: Chain<S>)
    requires i <= |blocks| && st.height + |blocks| <= LAST_HEIGHT
    ensures r.height == st.height + i
  {
    Run(cfg, st, blocks[..i])
  }

  lemma RunMore<S>(cfg: Config<S>, st: Chain<S>, earlier: seq<Block<S>>, b: Block<S>, all: seq<Block<S>>)
    requires all == earlier + [b] && st.height + |all| <= LAST_HEIGHT
    ensures Run(cfg, st, all) == Next(cfg, Run(cfg, st, earlier), b)
  {
    assert all[..|all| - 1] == earlier && all[|all| - 1] == b;
  }

  lemma TakeNext<T>(s: seq<T>, i: nat, next: nat)
    requires next == i + 1 <= |s|
    ensures s[..next] == s[..i] + [s[i]]
  {
  }

  lemma AtNext<S>(cfg: Config<S>, st: Chain<S>, blocks: seq<Block<S>>, i: nat, next: nat)
    requires i < |blocks| && next == i + 1 && st.height + |blocks| <= LAST_HEIGHT
    ensures At(cfg, st, blocks, next) == Next(cfg, At(cfg, st, blocks, i), blocks[i])
  {
    TakeNext(blocks, i, next);
    RunMore(cfg, st, blocks[..i], blocks[i], blocks[..next]);
  }

  /** A contract gets exactly one update call in a block, however many events
      there were, and none if nothing happened while it could stake. */
  lemma ExactlyOneCall<S>(cfg: Config<S>, st: Chain<S>, blocks: seq<Block<S>>, i: nat)
    requires Settled(st) && i < |blocks| && st.height + |blocks| <= LAST_HEIGHT
    requires forall k | 0 <= k < |blocks| :: QuietAfter(blocks[k])
    ensures CalledOnceIfNotified(cfg, At(cfg, st, blocks, i), blocks[i].pre)
  {
    RunSettles(cfg, st, blocks[..i]);
    OneCallInBlock(cfg, At(cfg, st, blocks, i), blocks[i].pre);
  }

  /** The contracts called after the steps are those that were notified in them,
      each of them once. */
  ghost predicate CalledOnceIfNotified<S>(cfg: Config<S>, at: Chain<S>, steps: seq<Step<S>>) {
    var due := UpdatesDue(After(cfg, at, steps));
    && (forall c: Addr :: (exists k :: 0 <= k < |due| && due[k].contract == c) <==> NotifiedBy(cfg, at, steps, c))
    && (forall k, l | 0 <= k < l < |due| :: due[k].contract != due[l].contract)
  }

  lemma OneCallInBlock<S>(cfg: Config<S>, at: Chain<S>, steps: seq<Step<S>>)
    requires Settled(at)
    ensures CalledOnceIfNotified(cfg, at, steps)
  {
    var st := After(cfg, at, steps);
    var due := UpdatesDue(st);
    SameHeight(cfg, at, steps);
    DueCharacterised(st.records.tasks, TASK_VALSET_UPDATE, st.height);
    forall k | 0 <= k < |due|
      ensures due[k] == Task(TASK_VALSET_UPDATE, st.height, due[k].contract)
      ensures NotifiedBy(cfg, at, steps, due[k].contract)
    {
      assert due[k] in due;
      UpdatesAfter(cfg, at, steps, due[k]);
      assert due[k] !in Updates(at.records.tasks);
    }
    forall c: Addr | NotifiedBy(cfg, at, steps, c)
      ensures exists k :: 0 <= k < |due| && due[k].contract == c
    {
      UpdatesAfter(cfg, at, steps, Task(TASK_VALSET_UPDATE, st.height, c));
      TaskIsCalled(st, Task(TASK_VALSET_UPDATE, st.height, c));
    }
  }

  // ------------------------------------- and with events behind the end blocker

  lemma BlockKeepsPending<S>(cfg: Config<S>, at: Chain<S>, b: Block<S>)
    requires UpdatesArePending(at) && at.height < LAST_HEIGHT
    ensures Updates(Ending(cfg, at, b).records.tasks) == {}
    ensures UpdatesArePending(Next(cfg, at, b))
  {
    StepsKeepPending(cfg, at, b.pre);
    BlockEndUpdates(cfg.env, cfg.params.epochLength, Collected(cfg, at, b));
    NoUpdatesPending(Ending(cfg, at, b));
    StepsKeepPending(cfg, Ending(cfg, at, b), b.post);
    SameHeight(cfg, at, b.pre);
    SameHeight(cfg, Ending(cfg, at, b), b.post);
  }

  lemma {:induction false} RunKeepsPending<S>(cfg: Config<S>, st: Chain<S>, blocks: seq<Block<S>>)
    requires UpdatesArePending(st) && st.height + |blocks| <= LAST_HEIGHT
    ensures UpdatesArePending(Run(cfg, st, blocks))
    decreases |blocks|
  {
    if blocks != [] {
      var init := blocks[..|blocks| - 1];
      RunKeepsPending(cfg, st, init);
      BlockKeepsPending(cfg, Run(cfg, st, init), blocks[|blocks| - 1]);
    }
  }

  /** What is pending at the start of a block comes from behind the last end
      blocker. */
  lemma UpdatesAtStart<S>(cfg: Config<S>, at: Chain<S>, b: Block<S>, x: Task)
    requires UpdatesArePending(at) && at.height < LAST_HEIGHT && x.tp == TASK_VALSET_UPDATE
    ensures x in Next(cfg, at, b).records.tasks <==>
            x.height == at.height && NotifiedBy(cfg, Ending(cfg, at, b), b.post, x.contract)
  {
    BlockKeepsPending(cfg, at, b);
    UpdatesAfter(cfg, Ending(cfg, at, b), b.post, x);
    SameHeight(cfg, at, b.pre);
    assert x !in Updates(Ending(cfg, at, b).records.tasks);
  }

  /** The calls at the end of block `next`: one for every contract notified
      behind the end blocker of block `b` before it, and one for every contract
      notified in `next` itself. A contract is called twice at most, for the
      earlier height first. */
  ghost predicate CalledForEachHeight<S>(cfg: Config<S>, at: Chain<S>, b: Block<S>, next: Block<S>)
    requires at.height < LAST_HEIGHT
  {
    var st := Next(cfg, at, b);
    var due := UpdatesDue(Collected(cfg, st, next));
    && (forall x :: x in due <==>
          && x.tp == TASK_VALSET_UPDATE
          && (|| (x.height == at.height && NotifiedBy(cfg, Ending(cfg, at, b), b.post, x.contract))
              || (x.height == st.height && NotifiedBy(cfg, st, next.pre, x.contract))))
    && (forall k, l | 0 <= k < l < |due| && due[k].contract == due[l].contract ::
          due[k].height == at.height && due[l].height == st.height)
  }

  lemma CallsOfABlock<S>(cfg: Config<S>, at: Chain<S>, b: Block<S>, next: Block<S>)
    requires UpdatesArePending(at) && at.height < LAST_HEIGHT
    ensures CalledForEachHeight(cfg, at, b, next)
  {
    var st := Next(cfg, at, b);
    var end := Collected(cfg, st, next);
    SameHeight(cfg, at, b.pre);
    SameHeight(cfg, st, next.pre);
    SameHeight(cfg, Ending(cfg, at, b), b.post);
    DueCharacterised(end.records.tasks, TASK_VALSET_UPDATE, end.height);
    forall x: Task | x.tp == TASK_VALSET_UPDATE
      ensures x in end.records.tasks <==>
              || (x.height == at.height && NotifiedBy(cfg, Ending(cfg, at, b), b.post, x.contract))
              || (x.height == st.height && NotifiedBy(cfg, st, next.pre, x.contract))
    {
      UpdatesAtStart(cfg, at, b, x);
      UpdatesAfter(cfg, st, next.pre, x);
    }
    var due := UpdatesDue(end);
    forall k, l | 0 <= k < l < |due| && due[k].contract == due[l].contract
      ensures due[k].height == at.height && due[l].height == st.height
    {
      assert due[k] in due && due[l] in due && Before(due[k], due[l]);
      LtIrreflexive(due[k].contract);
    }
  }

  /** In every block of a run but the first, whatever is piped where. */
  lemma CallsOfARun<S>(cfg: Config<S>, st: Chain<S>, blocks: seq<Block<S>>, i: nat)
    requires UpdatesArePending(st) && i + 1 < |blocks| && st.height + |blocks| <= LAST_HEIGHT
    ensures At(cfg, st, blocks, i + 1) == Next(cfg, At(cfg, st, blocks, i), blocks[i])
    ensures CalledForEachHeight(cfg, At(cfg, st, blocks, i), blocks[i], blocks[i + 1])
  {
    AtNext(cfg, st, blocks, i, i + 1);
    RunKeepsPending(cfg, st, blocks[..i]);
    CallsOfABlock(cfg, At(cfg, st, blocks, i), blocks[i], blocks[i + 1]);
  }
}
