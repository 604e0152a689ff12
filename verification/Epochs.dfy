/** The epoch schedule over whole runs: every contract that can stake is called
    at least once in every epoch. */
module Epochs {
  import opened Bytes
  import opened Types
  import opened Order
  import opened Keys
  import opened Scheduler
  import opened SchedulerKeeper
  import opened Amounts
  import opened ValsetKeeper
  import opened MsgServer
  import opened EndBlock
  import opened Runs

  /** `x` is a repeating epoch task. */
  predicate Recurs(t: Table, x: Task) {
    x in t && x.tp == TASK_HANDLE_EPOCH && t[x]
  }

  /** A contract that can stake has a repeating epoch task, no contract has two,
      and all of them lie within a window of heights. */
  ghost predicate Scheduled(t: Table, caps: AmountTable, from: int, to: int) {
    && (forall x | Recurs(t, x) :: from <= x.height <= to)
    && (forall x, y | Recurs(t, x) && Recurs(t, y) && x.contract == y.contract :: x == y)
    && (forall c | Amount(caps, c) > 0 :: SomeTask(t, TASK_HANDLE_EPOCH, c, true))
  }

  /** Before the end blocker the window reaches one epoch ahead, this block included ... */
  ghost predicate ScheduledIn<S>(cfg: Config<S>, st: Chain<S>) {
    Scheduled(st.records.tasks, st.records.caps, st.height, st.height + cfg.params.epochLength)
  }

  /** ... at the start of a block it is one shorter ... */
  ghost predicate ScheduledAtStart<S>(cfg: Config<S>, st: Chain<S>) {
    Scheduled(st.records.tasks, st.records.caps, st.height, st.height + cfg.params.epochLength - 1)
  }

  /** ... and after the end blocker this block is over. */
  ghost predicate ScheduledAhead<S>(cfg: Config<S>, st: Chain<S>) {
    Scheduled(st.records.tasks, st.records.caps, st.height + 1, st.height + cfg.params.epochLength)
  }

  /** The store of a new chain: no caps, no tasks. */
  ghost predicate Fresh<S>(st: Chain<S>) {
    st.records.tasks == map[] && st.records.caps == map[]
  }

  lemma FreshIsScheduled<S>(cfg: Config<S>, st: Chain<S>)
    requires Fresh(st)
    ensures ScheduledAtStart(cfg, st)
  {
  }

  // ------------------------------------------------------------ one step

  lemma NotifiedRecurs(t: Table, cs: set<Addr>, height: Height, x: Task)
    ensures Recurs(Notified(t, cs, height), x) <==> Recurs(t, x)
  {
  }

  /** An epoch schedule update: which tasks recur afterwards. */
  lemma EpochScheduleRecurs(t: Table, c: Addr, amount: int, height: Height, epochLength: u32, x: Task)
    ensures var t' := EpochSchedule(t, c, amount, height, epochLength);
            Recurs(t', x) <==>
              if !SomeTask(t, TASK_HANDLE_EPOCH, c, true) then Recurs(t, x) || x == EpochAhead(height, epochLength, c)
              else Recurs(t, x) && !(amount == 0 && x.contract == c)
  {
  }

  lemma EpochScheduleKeeps(
    t: Table, caps: AmountTable, c: Addr, amount: int, height: Height, epochLength: u32, from: int, to: int)
    requires Scheduled(t, caps, from, to)
    requires from <= height + epochLength <= to && amount >= 0
    ensures Scheduled(EpochSchedule(t, c, amount, height, epochLength), caps[c := amount], from, to)
  {
    var t' := EpochSchedule(t, c, amount, height, epochLength);
    forall x: Task
      ensures Recurs(t', x) <==>
              if !SomeTask(t, TASK_HANDLE_EPOCH, c, true) then Recurs(t, x) || x == EpochAhead(height, epochLength, c)
              else Recurs(t, x) && !(amount == 0 && x.contract == c)
    {
      EpochScheduleRecurs(t, c, amount, height, epochLength, x);
    }
    forall d | Amount(caps[c := amount], d) > 0 ensures SomeTask(t', TASK_HANDLE_EPOCH, d, true) {
      if d == c && !SomeTask(t, TASK_HANDLE_EPOCH, c, true) {
        assert Recurs(t', EpochAhead(height, epochLength, c));
      } else {
        assert d != c ==> Amount(caps, d) > 0;
        var x :| x in t && x.tp == TASK_HANDLE_EPOCH && x.contract == d && t[x];
        assert Recurs(t', x);
      }
    }
  }

  lemma NotifiedKeeps(t: Table, caps: AmountTable, cs: set<Addr>, height: Height, from: int, to: int)
    requires Scheduled(t, caps, from, to)
    ensures Scheduled(Notified(t, cs, height), caps, from, to)
  {
    var t' := Notified(t, cs, height);
    forall x ensures Recurs(t', x) <==> Recurs(t, x) { NotifiedRecurs(t, cs, height, x); }
    forall c | Amount(caps, c) > 0 ensures SomeTask(t', TASK_HANDLE_EPOCH, c, true) {
      var x :| x in t && x.tp == TASK_HANDLE_EPOCH && x.contract == c && t[x];
      assert Recurs(t', x);
    }
  }

  lemma StepKeepsSchedule<S>(cfg: Config<S>, st: Chain<S>, step: Step<S>, from: int)
    requires from <= st.height + cfg.params.epochLength
    requires Scheduled(st.records.tasks, st.records.caps, from, st.height + cfg.params.epochLength)
    ensures var r := Apply(cfg, st, step).records;
            Scheduled(r.tasks, r.caps, from, st.height + cfg.params.epochLength)
  {
    var to := st.height + cfg.params.epochLength;
    match step
    case Pipe(e) =>
      NotifiedKeeps(st.records.tasks, st.records.caps, Enabled(st.records.caps), st.height, from, to);
    case SetCap(req) =>
      if Verdict(cfg.deps, cfg.params, st.records, req).Ok? {
        EpochScheduleKeeps(st.records.tasks, st.records.caps, cfg.deps.fromBech32(req.contract).value,
                           req.maxCap.amount, st.height, cfg.params.epochLength, from, to);
      }
    case Other(_, _) =>
  }

  lemma {:induction false} StepsKeepSchedule<S>(cfg: Config<S>, st: Chain<S>, steps: seq<Step<S>>, from: int)
    requires from <= st.height + cfg.params.epochLength
    requires Scheduled(st.records.tasks, st.records.caps, from, st.height + cfg.params.epochLength)
    ensures var r := After(cfg, st, steps).records;
            Scheduled(r.tasks, r.caps, from, st.height + cfg.params.epochLength)
  {
    if steps != [] {
      var init := steps[..|steps| - 1];
      StepsKeepSchedule(cfg, st, init, from);
      SameHeight(cfg, st, init);
      StepKeepsSchedule(cfg, After(cfg, st, init), steps[|steps| - 1], from);
    }
  }

  // ----------------------------------------------------------- a whole block

  /** What recurs after an end blocker: the tasks ahead, and one an epoch ahead
      for each that was due. */
  lemma BlockEndRecurs<S>(env: Env<S>, epochLength: u32, st: Chain<S>, x: Task)
    ensures var t, t' := st.records.tasks, BlockEnd(env, epochLength, st).records.tasks;
            Recurs(t', x) <==>
              || (Recurs(t, x) && x.height > st.height)
              || (&& x.tp == TASK_HANDLE_EPOCH && 0 < epochLength && x.height == st.height + epochLength
                  && exists h: u64 :: h <= st.height && Recurs(t, Task(TASK_HANDLE_EPOCH, h, x.contract)))
  {
    var t := st.records.tasks;
    var mid := AfterPass(t, TASK_VALSET_UPDATE, st.height, epochLength);
    OtherTypeDue(t, TASK_VALSET_UPDATE, TASK_HANDLE_EPOCH, st.height, epochLength);
    AfterPassCharacterised(mid, TASK_HANDLE_EPOCH, st.height, epochLength, x);
    forall h: u64
      ensures var y := Task(TASK_HANDLE_EPOCH, h, x.contract); (y in mid && mid[y]) <==> Recurs(t, y)
    {
    }
  }

  /** Where a task that recurs after an end blocker comes from. */
  ghost predicate ComesFrom(t: Table, now: Height, epochLength: u32, x: Task, h: u64) {
    && Recurs(t, Task(TASK_HANDLE_EPOCH, h, x.contract))
    && x == Task(TASK_HANDLE_EPOCH, if h <= now then now + epochLength else h, x.contract)
  }

  lemma RecursComesFrom<S>(env: Env<S>, epochLength: u32, st: Chain<S>, x: Task) returns (h: u64)
    requires Recurs(BlockEnd(env, epochLength, st).records.tasks, x)
    ensures ComesFrom(st.records.tasks, st.height, epochLength, x, h)
    ensures h <= st.height ==> epochLength > 0
  {
    BlockEndRecurs(env, epochLength, st, x);
    if Recurs(st.records.tasks, x) && x.height > st.height {
      h := x.height;
      assert x == Task(TASK_HANDLE_EPOCH, h, x.contract);
    } else {
      h :| h <= st.height && Recurs(st.records.tasks, Task(TASK_HANDLE_EPOCH, h, x.contract));
      assert x == Task(TASK_HANDLE_EPOCH, st.height + epochLength, x.contract);
    }
  }

  lemma EnabledRecurs<S>(env: Env<S>, epochLength: u32, st: Chain<S>, c: Addr)
    requires SomeTask(st.records.tasks, TASK_HANDLE_EPOCH, c, true) && epochLength > 0
    ensures SomeTask(BlockEnd(env, epochLength, st).records.tasks, TASK_HANDLE_EPOCH, c, true)
  {
    var t := st.records.tasks;
    var x :| x in t && x.tp == TASK_HANDLE_EPOCH && x.contract == c && t[x];
    var y := if x.height > st.height then x else EpochAhead(st.height, epochLength, c);
    assert x == Task(TASK_HANDLE_EPOCH, x.height, c) && Recurs(t, x);
    BlockEndRecurs(env, epochLength, st, y);
    assert Recurs(BlockEnd(env, epochLength, st).records.tasks, y);
  }

  /** After the end blocker every repeating epoch task lies in the next epoch. */
  lemma BlockEndKeepsSchedule<S>(cfg: Config<S>, st: Chain<S>)
    requires ScheduledIn(cfg, st) && cfg.params.epochLength > 0
    ensures ScheduledAhead(cfg, BlockEnd(cfg.env, cfg.params.epochLength, st))
  {
    var t' := BlockEnd(cfg.env, cfg.params.epochLength, st).records.tasks;
    forall x | Recurs(t', x) ensures st.height + 1 <= x.height <= st.height + cfg.params.epochLength {
      var h := RecursComesFrom(cfg.env, cfg.params.epochLength, st, x);
    }
    forall x, y | Recurs(t', x) && Recurs(t', y) && x.contract == y.contract ensures x == y {
      var h := RecursComesFrom(cfg.env, cfg.params.epochLength, st, x);
      var k := RecursComesFrom(cfg.env, cfg.params.epochLength, st, y);
    }
    forall c | Amount(st.records.caps, c) > 0 ensures SomeTask(t', TASK_HANDLE_EPOCH, c, true) {
      EnabledRecurs(cfg.env, cfg.params.epochLength, st, c);
    }
  }

  /** With an epoch length of zero, which parameter validation refuses, an end
      blocker keeps exactly the repeating tasks that are not yet due. */
  lemma ZeroEpochEndsSchedule<S>(cfg: Config<S>, st: Chain<S>, x: Task)
    requires cfg.params.epochLength == 0
    ensures Recurs(BlockEnd(cfg.env, cfg.params.epochLength, st).records.tasks, x) <==>
            Recurs(st.records.tasks, x) && x.height > st.height
  {
    BlockEndRecurs(cfg.env, cfg.params.epochLength, st, x);
  }

  /** The invariant of a block. */
  lemma BlockKeepsSchedule<S>(cfg: Config<S>, st: Chain<S>, b: Block<S>)
    requires ScheduledAtStart(cfg, st) && cfg.params.epochLength > 0 && st.height < LAST_HEIGHT
    ensures ScheduledIn(cfg, Collected(cfg, st, b))
    ensures ScheduledAhead(cfg, Closed(cfg, st, b))
    ensures ScheduledAtStart(cfg, Next(cfg, st, b))
  {
    StepsKeepSchedule(cfg, st, b.pre, st.height);
    SameHeight(cfg, st, b.pre);
    BlockEndKeepsSchedule(cfg, Collected(cfg, st, b));
    var end := BlockEnd(cfg.env, cfg.params.epochLength, Collected(cfg, st, b));
    StepsKeepSchedule(cfg, end, b.post, st.height + 1);
    SameHeight(cfg, end, b.post);
  }

  /** In every reachable state each contract has at most one repeating epoch
      task, one if it can stake, and it is due within the next epoch. */
  lemma {:induction false} RunKeepsSchedule<S>(cfg: Config<S>, st: Chain<S>, blocks: seq<Block<S>>)
    requires ScheduledAtStart(cfg, st) && cfg.params.epochLength > 0 && st.height + |blocks| <= LAST_HEIGHT
    ensures ScheduledAtStart(cfg, Run(cfg, st, blocks))
    decreases |blocks|
  {
    if blocks != [] {
      var init := blocks[..|blocks| - 1];
      RunKeepsSchedule(cfg, st, init);
      BlockKeepsSchedule(cfg, Run(cfg, st, init), blocks[|blocks| - 1]);
    }
  }

  // --------------------------------------------------------- bounded liveness

  /** The contract can stake in every state the steps go through. */
  ghost predicate EnabledThroughout<S>(cfg: Config<S>, st: Chain<S>, steps: seq<Step<S>>, c: Addr) {
    && Amount(After(cfg, st, steps).records.caps, c) > 0
    && (steps != [] ==> EnabledThroughout(cfg, st, steps[..|steps| - 1], c))
  }

  ghost predicate EnabledInBlock<S>(cfg: Config<S>, st: Chain<S>, b: Block<S>, c: Addr) {
    && EnabledThroughout(cfg, st, b.pre, c)
    && EnabledThroughout(cfg, BlockEnd(cfg.env, cfg.params.epochLength, Collected(cfg, st, b)), b.post, c)
  }

  lemma StepKeepsTask<S>(cfg: Config<S>, st: Chain<S>, step: Step<S>, x: Task)
    requires Recurs(st.records.tasks, x) && Amount(Apply(cfg, st, step).records.caps, x.contract) > 0
    ensures Recurs(Apply(cfg, st, step).records.tasks, x)
  {
    match step
    case Pipe(e) => NotifiedRecurs(st.records.tasks, Enabled(st.records.caps), st.height, x);
    case SetCap(req) =>
      if Verdict(cfg.deps, cfg.params, st.records, req).Ok? {
        EpochScheduleRecurs(st.records.tasks, cfg.deps.fromBech32(req.contract).value, req.maxCap.amount, st.height,
                            cfg.params.epochLength, x);
      }
    case Other(_, _) =>
  }

  lemma {:induction false} StepsKeepTask<S>(cfg: Config<S>, st: Chain<S>, steps: seq<Step<S>>, x: Task)
    requires Recurs(st.records.tasks, x) && EnabledThroughout(cfg, st, steps, x.contract)
    ensures Recurs(After(cfg, st, steps).records.tasks, x)
  {
    if steps != [] {
      var n := |steps| - 1;
      StepsKeepTask(cfg, st, steps[..n], x);
      StepKeepsTask(cfg, After(cfg, st, steps[..n]), steps[n], x);
    }
  }

  lemma {:induction false} EnabledAtFirst<S>(cfg: Config<S>, st: Chain<S>, steps: seq<Step<S>>, c: Addr)
    requires EnabledThroughout(cfg, st, steps, c)
    ensures Amount(st.records.caps, c) > 0
  {
    if steps != [] { EnabledAtFirst(cfg, st, steps[..|steps| - 1], c); }
  }

  /** The `k`-th epoch call sends the epoch message to `c`, in the world it finds;
      what the contract does is kept if it succeeds. */
  ghost predicate EpochCallAt<S>(env: Env<S>, st: Chain<S>, k: nat, c: Addr) {
    && k < |EpochsDue(st)| && EpochsDue(st)[k].contract == c
    && var w, w' := EpochWorld(env, st, k), EpochWorld(env, st, k + 1);
    && var o := env.sudo(w, st.records.caps, c, HandleEpoch);
    && w' == if o.Done? then o.state else w
  }

  /** The end blocker that starts from `st` makes an epoch call to `c`, and leaves
      the world as it is after all these calls. */
  ghost predicate EpochCalled<S>(cfg: Config<S>, st: Chain<S>, c: Addr) {
    && (exists k :: EpochCallAt(cfg.env, st, k, c))
    && var end := BlockEnd(cfg.env, cfg.params.epochLength, st);
       World(end.app, end.records.delegated) == EpochWorld(cfg.env, st, |EpochsDue(st)|)
  }

  lemma DueTaskIsCalled<S>(cfg: Config<S>, st: Chain<S>, h: u64, c: Addr)
    requires h <= st.height && Task(TASK_HANDLE_EPOCH, h, c) in st.records.tasks
    ensures EpochCalled(cfg, st, c)
  {
    DueCharacterised(st.records.tasks, TASK_HANDLE_EPOCH, st.height);
    assert Task(TASK_HANDLE_EPOCH, h, c) in EpochsDue(st);
    var k :| 0 <= k < |EpochsDue(st)| && EpochsDue(st)[k] == Task(TASK_HANDLE_EPOCH, h, c);
    assert EpochCallAt(cfg.env, st, k, c);
    BlockEndWorld(cfg.env, cfg.params.epochLength, st);
  }

  lemma DueIsCalled<S>(cfg: Config<S>, st: Chain<S>, x: Task)
    requires Recurs(st.records.tasks, x) && x.height <= st.height
    ensures EpochCalled(cfg, st, x.contract)
  {
    assert x == Task(TASK_HANDLE_EPOCH, x.height, x.contract);
    DueTaskIsCalled(cfg, st, x.height, x.contract);
  }

  /** A task that is not yet due survives the block. */
  lemma BlockKeepsTask<S>(cfg: Config<S>, st: Chain<S>, b: Block<S>, x: Task)
    requires Recurs(st.records.tasks, x) && EnabledInBlock(cfg, st, b, x.contract)
    requires st.height < x.height && st.height < LAST_HEIGHT
    ensures Recurs(Next(cfg, st, b).records.tasks, x)
  {
    StepsKeepTask(cfg, st, b.pre, x);
    SameHeight(cfg, st, b.pre);
    BlockEndRecurs(cfg.env, cfg.params.epochLength, Collected(cfg, st, b), x);
    StepsKeepTask(cfg, BlockEnd(cfg.env, cfg.params.epochLength, Collected(cfg, st, b)), b.post, x);
  }

  /** ... in every block of a run. */
  ghost predicate EnabledInRun<S>(cfg: Config<S>, st: Chain<S>, blocks: seq<Block<S>>, c: Addr)
    requires st.height + |blocks| <= LAST_HEIGHT
    decreases |blocks|
  {
    blocks != [] ==>
      var init := blocks[..|blocks| - 1];
      EnabledInRun(cfg, st, init, c) && EnabledInBlock(cfg, Run(cfg, st, init), blocks[|blocks| - 1], c)
  }

  lemma TakeOneMore<T>(s: seq<T>, i: nat)
    requires i < |s|
    ensures s[..i] + [s[i]] <= s && (i == 0 ==> s[..i] == [])
  {
  }

  lemma PrefixOfInit<T>(s: seq<T>, p: seq<T>, x: T)
    requires p + [x] <= s
    ensures if |p| + 1 < |s| then p + [x] <= s[..|s| - 1] else s[..|s| - 1] == p && s[|s| - 1] == x
  {
    assert s[|p|] == x;
  }

  lemma EnabledLast<S>(cfg: Config<S>, st: Chain<S>, blocks: seq<Block<S>>, c: Addr)
    requires st.height + |blocks| <= LAST_HEIGHT && blocks != [] && EnabledInRun(cfg, st, blocks, c)
    ensures var init := blocks[..|blocks| - 1];
            EnabledInRun(cfg, st, init, c) && EnabledInBlock(cfg, Run(cfg, st, init), blocks[|blocks| - 1], c)
  {
  }

  lemma {:induction false} EnabledBefore<S>(
    cfg: Config<S>, st: Chain<S>, blocks: seq<Block<S>>, earlier: seq<Block<S>>, b: Block<S>, c: Addr)
    requires st.height + |blocks| <= LAST_HEIGHT && EnabledInRun(cfg, st, blocks, c)
    requires earlier + [b] <= blocks
    ensures EnabledInRun(cfg, st, earlier, c) && EnabledInBlock(cfg, Run(cfg, st, earlier), b, c)
    decreases |blocks|
  {
    var n := |blocks| - 1;
    EnabledLast(cfg, st, blocks, c);
    PrefixOfInit(blocks, earlier, b);
    if |earlier| < n { EnabledBefore(cfg, st, blocks[..n], earlier, b, c); }
  }

  /** A repeating task waits until its height is reached. */
  lemma {:induction false} TaskWaits<S>(cfg: Config<S>, st: Chain<S>, blocks: seq<Block<S>>, x: Task)
    requires st.height + |blocks| <= LAST_HEIGHT && EnabledInRun(cfg, st, blocks, x.contract)
    requires Recurs(st.records.tasks, x) && st.height + |blocks| <= x.height
    ensures Recurs(Run(cfg, st, blocks).records.tasks, x)
    decreases |blocks|
  {
    if blocks != [] {
      var n := |blocks| - 1;
      TaskWaits(cfg, st, blocks[..n], x);
      BlockKeepsTask(cfg, Run(cfg, st, blocks[..n]), blocks[n], x);
    }
  }

  lemma TaskOf(t: Table, caps: AmountTable, from: int, to: int, c: Addr) returns (x: Task)
    requires Scheduled(t, caps, from, to) && Amount(caps, c) > 0
    ensures Recurs(t, x) && x.contract == c && from <= x.height <= to
  {
    assert SomeTask(t, TASK_HANDLE_EPOCH, c, true);
    x :| x in t && x.tp == TASK_HANDLE_EPOCH && x.contract == c && t[x];
    assert Recurs(t, x);
  }

  /** A contract that can stake has its task, and that within the epoch. */
  lemma EnabledHasTask<S>(cfg: Config<S>, st: Chain<S>, epoch: seq<Block<S>>, c: Addr) returns (x: Task)
    requires ScheduledAtStart(cfg, st) && st.height + |epoch| <= LAST_HEIGHT
    requires epoch != [] && EnabledInRun(cfg, st, epoch, c)
    ensures Recurs(st.records.tasks, x) && x.contract == c
    ensures st.height <= x.height <= st.height + cfg.params.epochLength - 1
  {
    TakeOneMore(epoch, 0);
    EnabledBefore(cfg, st, epoch, epoch[..0], epoch[0], c);
    EnabledAtFirst(cfg, st, epoch[0].pre, c);
    x := TaskOf(st.records.tasks, st.records.caps, st.height, st.height + cfg.params.epochLength - 1, c);
  }

  /** A task that waits is called in the block of its height. */
  lemma CalledAtItsHeight<S>(cfg: Config<S>, st: Chain<S>, epoch: seq<Block<S>>, x: Task, i: nat)
    requires st.height + |epoch| <= LAST_HEIGHT && EnabledInRun(cfg, st, epoch, x.contract)
    requires Recurs(st.records.tasks, x) && i < |epoch| && x.height == st.height + i
    ensures EpochCalled(cfg, Collected(cfg, Run(cfg, st, epoch[..i]), epoch[i]), x.contract)
  {
    TakeOneMore(epoch, i);
    EnabledBefore(cfg, st, epoch, epoch[..i], epoch[i], x.contract);
    TaskWaits(cfg, st, epoch[..i], x);
    var at := Run(cfg, st, epoch[..i]);
    StepsKeepTask(cfg, at, epoch[i].pre, x);
    SameHeight(cfg, at, epoch[i].pre);
    DueIsCalled(cfg, Collected(cfg, at, epoch[i]), x);
  }

  /** A contract that can stake all through an epoch's worth of consecutive
      blocks is called at the end of one of them, wherever in the run they are. */
  lemma CalledEveryEpoch<S>(cfg: Config<S>, st: Chain<S>, earlier: seq<Block<S>>, epoch: seq<Block<S>>, c: Addr)
    returns (i: nat)
    requires ScheduledAtStart(cfg, st) && st.height + |earlier| + |epoch| <= LAST_HEIGHT
    requires |epoch| == cfg.params.epochLength > 0
    requires EnabledInRun(cfg, Run(cfg, st, earlier), epoch, c)
    ensures i < |epoch|
    ensures EpochCalled(cfg, Collected(cfg, Run(cfg, Run(cfg, st, earlier), epoch[..i]), epoch[i]), c)
  {
    var start := Run(cfg, st, earlier);
    RunKeepsSchedule(cfg, st, earlier);
    var x := EnabledHasTask(cfg, start, epoch, c);
    i := x.height - start.height;
    CalledAtItsHeight(cfg, start, epoch, x, i);
  }

  /** No message of the steps asks for a cap of zero. */
  ghost predicate NeverZeroes<S>(cfg: Config<S>, steps: seq<Step<S>>, c: Addr) {
    forall i | 0 <= i < |steps| && steps[i].SetCap? ::
      cfg.deps.fromBech32(steps[i].req.contract) == Some(c) ==> steps[i].req.maxCap.amount != 0
  }

  lemma {:induction false} StepsKeepEnabled<S>(cfg: Config<S>, st: Chain<S>, steps: seq<Step<S>>, c: Addr)
    requires Amount(st.records.caps, c) > 0 && NeverZeroes(cfg, steps, c)
    ensures EnabledThroughout(cfg, st, steps, c)
  {
    if steps != [] { StepsKeepEnabled(cfg, st, steps[..|steps| - 1], c); }
  }

  ghost predicate RunNeverZeroes<S>(cfg: Config<S>, blocks: seq<Block<S>>, c: Addr) {
    forall i | 0 <= i < |blocks| :: NeverZeroes(cfg, blocks[i].pre, c) && NeverZeroes(cfg, blocks[i].post, c)
  }

  lemma {:induction false} RunKeepsEnabled<S>(cfg: Config<S>, st: Chain<S>, blocks: seq<Block<S>>, c: Addr)
    requires st.height + |blocks| <= LAST_HEIGHT && Amount(st.records.caps, c) > 0 && RunNeverZeroes(cfg, blocks, c)
    ensures EnabledInRun(cfg, st, blocks, c) && Amount(Run(cfg, st, blocks).records.caps, c) > 0
    decreases |blocks|
  {
    if blocks != [] {
      var n := |blocks| - 1;
      RunKeepsEnabled(cfg, st, blocks[..n], c);
      var at := Run(cfg, st, blocks[..n]);
      StepsKeepEnabled(cfg, at, blocks[n].pre, c);
      var end := BlockEnd(cfg.env, cfg.params.epochLength, Collected(cfg, at, blocks[n]));
      StepsKeepEnabled(cfg, end, blocks[n].post, c);
    }
  }

  /** So a contract that can stake is called in every epoch until a message sets
      its cap to zero. */
  lemma CalledUntilZeroed<S>(cfg: Config<S>, st: Chain<S>, earlier: seq<Block<S>>, epoch: seq<Block<S>>, c: Addr)
    returns (i: nat)
    requires ScheduledAtStart(cfg, st) && st.height + |earlier| + |epoch| <= LAST_HEIGHT
    requires |epoch| == cfg.params.epochLength > 0
    requires Amount(Run(cfg, st, earlier).records.caps, c) > 0 && RunNeverZeroes(cfg, epoch, c)
    ensures i < |epoch|
    ensures EpochCalled(cfg, Collected(cfg, Run(cfg, Run(cfg, st, earlier), epoch[..i]), epoch[i]), c)
  {
    RunKeepsEnabled(cfg, Run(cfg, st, earlier), epoch, c);
    i := CalledEveryEpoch(cfg, st, earlier, epoch, c);
  }

  // --------------------------------------------------------- a change of cap

  /** The contract has an epoch task that is due. */
  ghost predicate EpochOwed<S>(st: Chain<S>, c: Addr) {
    exists h: u64 :: h <= st.height && Task(TASK_HANDLE_EPOCH, h, c) in st.records.tasks
  }

  /** The message is accepted, for this contract. */
  ghost predicate Accepted<S>(cfg: Config<S>, st: Chain<S>, step: Step<S>, c: Addr) {
    && step.SetCap? && Verdict(cfg.deps, cfg.params, st.records, step.req).Ok?
    && cfg.deps.fromBech32(step.req.contract).value == c
  }

  /** ... and the contract has its repeating task. */
  ghost predicate ChangesCap<S>(cfg: Config<S>, st: Chain<S>, step: Step<S>, c: Addr) {
    && Accepted(cfg, st, step, c)
    && SomeTask(st.records.tasks, TASK_HANDLE_EPOCH, c, true)
  }

  /** A cap of zero does not simply stop the schedule: the contract has a
      repeating task afterwards if and only if it had none before. */
  lemma ZeroCapTurnsSchedule<S>(cfg: Config<S>, st: Chain<S>, step: Step<S>, c: Addr)
    requires Accepted(cfg, st, step, c) && step.req.maxCap.amount == 0
    ensures SomeTask(Apply(cfg, st, step).records.tasks, TASK_HANDLE_EPOCH, c, true) <==>
            !SomeTask(st.records.tasks, TASK_HANDLE_EPOCH, c, true)
  {
    var t := st.records.tasks;
    if SomeTask(t, TASK_HANDLE_EPOCH, c, true) {
      forall x ensures !(Recurs(Apply(cfg, st, step).records.tasks, x) && x.contract == c) {
        EpochScheduleRecurs(t, c, 0, st.height, cfg.params.epochLength, x);
      }
    } else {
      EpochScheduleRecurs(t, c, 0, st.height, cfg.params.epochLength, EpochAhead(st.height, cfg.params.epochLength, c));
      assert Recurs(Apply(cfg, st, step).records.tasks, EpochAhead(st.height, cfg.params.epochLength, c));
    }
  }

  /** For example, a cap of zero in a new chain starts a schedule. */
  lemma ZeroCapStartsSchedule<S>(cfg: Config<S>, st: Chain<S>, step: Step<S>, c: Addr)
    requires Fresh(st) && Accepted(cfg, st, step, c) && step.req.maxCap.amount == 0
    ensures var r := Apply(cfg, st, step).records;
            && r.caps == map[c := 0]
            && r.tasks == map[EpochAhead(st.height, cfg.params.epochLength, c) := true]
  {
  }

  lemma ChangeOwesCall<S>(cfg: Config<S>, st: Chain<S>, step: Step<S>, c: Addr)
    requires ChangesCap(cfg, st, step, c)
    ensures EpochOwed(Apply(cfg, st, step), c)
  {
    assert Task(TASK_HANDLE_EPOCH, st.height, c) in Apply(cfg, st, step).records.tasks;
  }

  /** A due epoch task outlives every step: when a cap of zero deletes the tasks
      of the contract, a last one takes their place. */
  lemma StepKeepsEpochOwed<S>(cfg: Config<S>, st: Chain<S>, step: Step<S>, c: Addr)
    requires EpochOwed(st, c)
    ensures EpochOwed(Apply(cfg, st, step), c)
  {
    var h: u64 :| h <= st.height && Task(TASK_HANDLE_EPOCH, h, c) in st.records.tasks;
    var after := Apply(cfg, st, step).records.tasks;
    if ChangesCap(cfg, st, step, c) {
      ChangeOwesCall(cfg, st, step, c);
    } else {
      assert Task(TASK_HANDLE_EPOCH, h, c) in after;
    }
  }

  lemma {:induction false} ChangeStaysOwed<S>(cfg: Config<S>, st: Chain<S>, steps: seq<Step<S>>, j: nat, c: Addr)
    requires j < |steps| && ChangesCap(cfg, After(cfg, st, steps[..j]), steps[j], c)
    ensures EpochOwed(After(cfg, st, steps), c)
    decreases |steps|
  {
    var init, last := steps[..|steps| - 1], steps[|steps| - 1];
    if j == |steps| - 1 {
      ChangeOwesCall(cfg, After(cfg, st, init), last, c);
    } else {
      assert init[..j] == steps[..j];
      ChangeStaysOwed(cfg, st, init, j, c);
      StepKeepsEpochOwed(cfg, After(cfg, st, init), last, c);
    }
  }

  /** After a change of its cap, to zero or not, a contract is called at the end
      of the same block, whatever else the block holds. */
  lemma CapChangeCallsContract<S>(cfg: Config<S>, at: Chain<S>, b: Block<S>, j: nat, c: Addr)
    requires j < |b.pre| && ChangesCap(cfg, After(cfg, at, b.pre[..j]), b.pre[j], c)
    ensures EpochCalled(cfg, Collected(cfg, at, b), c)
  {
    var st := Collected(cfg, at, b);
    ChangeStaysOwed(cfg, at, b.pre, j, c);
    var h: u64 :| h <= st.height && Task(TASK_HANDLE_EPOCH, h, c) in st.records.tasks;
    DueTaskIsCalled(cfg, st, h, c);
  }

  /** A change to zero leaves no repeating task of the contract, so that call is
      its last one. */
  lemma ZeroCapStopsSchedule<S>(cfg: Config<S>, st: Chain<S>, step: Step<S>, c: Addr, x: Task)
    requires ChangesCap(cfg, st, step, c) && step.req.maxCap.amount == 0 && x.contract == c
    ensures !Recurs(Apply(cfg, st, step).records.tasks, x)
    ensures x.tp == TASK_HANDLE_EPOCH && x in Apply(cfg, st, step).records.tasks ==> x.height == st.height
  {
    EpochScheduleRecurs(st.records.tasks, c, 0, st.height, cfg.params.epochLength, x);
  }
}
