/** The scheduler's operations, working on the store of a context. */
module SchedulerKeeper {
  import opened Bytes
  import opened Types
  import opened Order
  import opened Keys
  import opened Scheduler
  import opened Amounts

  const MAX_UINT: u64 := 0xFFFF_FFFF_FFFF_FFFF

  /** Register a task to be executed once. An entry that exists already, in
      particular a repeating one, is left alone. */
  method ScheduleOneShotTask<S>(ctx: Context<S>, tp: byte, contract: Addr, execHeight: u64) returns (r: Result<()>)
    requires WellFormed(ctx.store)
    modifies ctx`store
    ensures WellFormed(ctx.store) && Others(ctx.store) == old(Others(ctx.store))
    ensures r == if execHeight < ctx.height || tp == TASK_UNDEFINED then Err(Invalid) else Ok(())
    ensures Tasks(ctx.store) == if r.Err? then old(Tasks(ctx.store))
                                else OneShot(old(Tasks(ctx.store)), Task(tp, execHeight, contract))
    ensures r.Ok? ==>
              var was, x := old(Tasks(ctx.store)), Task(tp, execHeight, contract);
              Tasks(ctx.store) == if x in was then was else was[x := false]
  {
    if execHeight < ctx.height {
      return Err(Invalid);
    }
    var storeKey := BuildSchedulerContractKey(tp, execHeight, contract);
    if storeKey.Err? { return Err(storeKey.error); }
    TasksAt(ctx.store, Task(tp, execHeight, contract));
    if storeKey.value in ctx.store {
      return Ok(());
    }
    SetTask(ctx.store, Task(tp, execHeight, contract), false);
    ctx.store := ctx.store[storeKey.value := [ToByte(false)]];
    return Ok(());
  }

  /** Register a recurring task; an existing entry is overwritten. */
  method ScheduleRepeatingTask<S>(ctx: Context<S>, tp: byte, contract: Addr, execHeight: u64) returns (r: Result<()>)
    requires WellFormed(ctx.store)
    modifies ctx`store
    ensures WellFormed(ctx.store) && Others(ctx.store) == old(Others(ctx.store))
    ensures r == if execHeight < ctx.height || tp == TASK_UNDEFINED then Err(Invalid) else Ok(())
    ensures Tasks(ctx.store) == if r.Err? then old(Tasks(ctx.store))
                                else Repeating(old(Tasks(ctx.store)), Task(tp, execHeight, contract))
    ensures r.Ok? ==> Tasks(ctx.store) == old(Tasks(ctx.store))[Task(tp, execHeight, contract) := true]
  {
    if execHeight < ctx.height {
      return Err(Invalid);
    }
    var storeKey := BuildSchedulerContractKey(tp, execHeight, contract);
    if storeKey.Err? { return Err(storeKey.error); }
    SetTask(ctx.store, Task(tp, execHeight, contract), true);
    ctx.store := ctx.store[storeKey.value := [ToByte(true)]];
    return Ok(());
  }

  /** What an iteration callback decides: true stops the scan. */
  type Callback = (Task, bool) -> bool

  predicate Stops(cb: Callback, t: Table, x: Task) {
    x in t && cb(x, t[x])
  }

  ghost predicate NoneStops(cb: Callback, t: Table, shown: seq<Task>) {
    forall i | 0 <= i < |shown| :: !Stops(cb, t, shown[i])
  }

  /** The callback was shown the list from the start, up to and including the
      first task it stopped at, or all of it. */
  ghost predicate ShownUntilStop(cb: Callback, t: Table, all: seq<Task>, shown: seq<Task>) {
    && shown <= all
    && (|| (shown == all && NoneStops(cb, t, shown))
        || (shown != [] && NoneStops(cb, t, shown[..|shown| - 1]) && Stops(cb, t, shown[|shown| - 1])))
  }

  /** Scan the tasks of a type up to a height in execution order, until the
      callback says stop. The result is what the callback was shown. */
  method IterateScheduledTasks<S>(ctx: Context<S>, tp: byte, maxHeight: u64, cb: Callback)
    returns (r: Result<seq<Task>>)
    requires WellFormed(ctx.store)
    ensures r.Err? <==> tp == TASK_UNDEFINED
    ensures r.Err? ==> r.error == Invalid
    ensures r.Ok? ==> ShownUntilStop(cb, Tasks(ctx.store), Due(Tasks(ctx.store), tp, maxHeight), r.value)
  {
    var keyPrefix := BuildSchedulerTypeKeyPrefix(tp);
    if keyPrefix.Err? { return Err(keyPrefix.error); }
    var shown := [];
    ghost var t := Tasks(ctx.store);
    ghost var seen: set<Task>, cursor: Option<Bytes> := {}, None;
    WalkStart(ctx.store, tp, maxHeight);
    var iter := Seek(ctx.store, keyPrefix.value, None);
    while iter.Some?
      invariant Walking(ctx.store, tp, cursor, maxHeight, t, shown, seen)
      invariant iter == Seek(ctx.store, keyPrefix.value, cursor)
      invariant NoneStops(cb, t, shown)
      decreases DueSet(t, tp, maxHeight) - seen
    {
      var key := iter.value;
      UnderTypePrefix(ctx.store, tp, cursor, key);
      var task := ReadTask(key);
      if task.height > maxHeight {
        break;
      }
      WalkNext(ctx.store, tp, cursor, maxHeight, t, shown, seen, key);
      WalkStep(ctx.store, ctx.store, tp, cursor, maxHeight, t, shown, seen, key);
      TasksAt(ctx.store, task);
      ghost var before := shown;
      shown, seen, cursor := shown + [task], seen + {task}, Some(key);
      if cb(task, IsRepeat(ctx.store[key])) {
        WalkPrefix(ctx.store, tp, cursor, maxHeight, t, shown, seen);
        assert shown[..|shown| - 1] == before;
        return Ok(shown);
      }
      iter := Seek(ctx.store, keyPrefix.value, Some(key));
    }
    WalkEnd(ctx.store, tp, cursor, maxHeight, t, shown, seen);
    return Ok(shown);
  }

  ghost predicate SomeTask(t: Table, tp: byte, contract: Addr, repeat: bool) {
    exists x :: x in t && x.tp == tp && x.contract == contract && t[x] == repeat
  }

  /** A stopped scan ends at a match; a scan that ran through saw no match. */
  lemma ShownFinds(cb: Callback, t: Table, tp: byte, shown: seq<Task>)
    requires ShownUntilStop(cb, t, Due(t, tp, MAX_UINT), shown)
    ensures var found := shown != [] && Stops(cb, t, shown[|shown| - 1]);
            && (found <==> exists x :: x in t && x.tp == tp && Stops(cb, t, x))
            && (found ==>
                  var last := shown[|shown| - 1];
                  && last in t && last.tp == tp
                  && forall x | x in t && x.tp == tp && Stops(cb, t, x) :: x == last || Before(last, x))
  {
    var all := Due(t, tp, MAX_UINT);
    DueCharacterised(t, tp, MAX_UINT);
    EarlierDoNotStop(cb, t, all, shown);
    forall x | x in t && x.tp == tp && Stops(cb, t, x)
      ensures shown != [] && Stops(cb, t, shown[|shown| - 1])
      ensures x == shown[|shown| - 1] || Before(shown[|shown| - 1], x)
    {
      assert x in all;
      var i :| 0 <= i < |all| && all[i] == x;
      assert i >= |shown| - 1;
    }
    if shown != [] {
      assert shown[|shown| - 1] in all;
    }
  }

  lemma EarlierDoNotStop(cb: Callback, t: Table, all: seq<Task>, shown: seq<Task>)
    requires ShownUntilStop(cb, t, all, shown)
    ensures forall j | 0 <= j < |shown| - 1 :: !Stops(cb, t, all[j])
  {
    forall j | 0 <= j < |shown| - 1 ensures !Stops(cb, t, all[j]) {
      assert shown[..|shown| - 1][j] == shown[j] == all[j];
    }
  }

  /** Does the contract have a task of the type with this repeat flag, at any
      height? */
  method HasScheduledTask<S>(ctx: Context<S>, tp: byte, contract: Addr, repeat: bool) returns (found: bool)
    requires WellFormed(ctx.store)
    ensures found <==> (tp != TASK_UNDEFINED && SomeTask(Tasks(ctx.store), tp, contract, repeat))
  {
    ghost var t := Tasks(ctx.store);
    var cb: Callback := (x: Task, isRepeat: bool) => x.contract == contract && repeat == isRepeat;
    var shown := IterateScheduledTasks(ctx, tp, MAX_UINT, cb);
    if shown.Err? { return false; }
    ShownFinds(cb, t, tp, shown.value);
    found := false;
    if shown.value != [] {
      var last := shown.value[|shown.value| - 1];
      DueCharacterised(t, tp, MAX_UINT);
      assert last in Due(t, tp, MAX_UINT);
      TasksAt(ctx.store, last);
      found := cb(last, IsRepeat(ctx.store[TaskKey(last)]));
    }
  }

  /** The lowest height at which the contract has a task of the type. */
  method GetNextScheduledTaskHeight<S>(ctx: Context<S>, tp: byte, contract: Addr) returns (height: u64, found: bool)
    requires WellFormed(ctx.store)
    ensures found <==> (tp != TASK_UNDEFINED && exists h: u64 :: Task(tp, h, contract) in Tasks(ctx.store))
    ensures found ==> Task(tp, height, contract) in Tasks(ctx.store)
    ensures found ==> forall h: u64 :: Task(tp, h, contract) in Tasks(ctx.store) ==> height <= h
    ensures !found ==> height == 0
  {
    ghost var t := Tasks(ctx.store);
    var cb: Callback := (x: Task, isRepeat: bool) => x.contract == contract;
    height, found := 0, false;
    var shown := IterateScheduledTasks(ctx, tp, MAX_UINT, cb);
    if shown.Err? { return; }
    ShownFinds(cb, t, tp, shown.value);
    if shown.value != [] {
      var last := shown.value[|shown.value| - 1];
      if last.contract == contract {
        DueCharacterised(t, tp, MAX_UINT);
        assert last in Due(t, tp, MAX_UINT);
        height, found := last.height, true;
      }
    }
    forall h: u64 | Task(tp, h, contract) in t ensures found && height <= h {
      assert Stops(cb, t, Task(tp, h, contract));
    }
    if found {
      assert Task(tp, height, contract) in t;
    }
  }

  /** Remove one entry. */
  method DeleteScheduledTask<S>(ctx: Context<S>, tp: byte, contract: Addr, execHeight: u64) returns (r: Result<()>)
    requires WellFormed(ctx.store)
    modifies ctx`store
    ensures r == if tp == TASK_UNDEFINED then Err(Invalid) else Ok(())
    ensures ctx.store == if r.Err? then old(ctx.store) else old(ctx.store) - {TaskKey(Task(tp, execHeight, contract))}
    ensures WellFormed(ctx.store) && Others(ctx.store) == old(Others(ctx.store))
    ensures Tasks(ctx.store) == if r.Err? then old(Tasks(ctx.store))
                                else old(Tasks(ctx.store)) - {Task(tp, execHeight, contract)}
  {
    var storeKey := BuildSchedulerContractKey(tp, execHeight, contract);
    if storeKey.Err? { return Err(storeKey.error); }
    DropTask(ctx.store, Task(tp, execHeight, contract));
    ctx.store := ctx.store - {storeKey.value};
    return Ok(());
  }

  /** What an open iterator sees: the store as it is now, or as it was when the
      iterator was opened. Nothing below depends on which. */
  function View(live: bool, snapshot: Kv, current: Kv): Kv {
    if live then current else snapshot
  }

  /** The state of a deleting scan. */
  ghost predicate Deleting(
    view: Kv, store: Kv, tp: byte, contract: Addr, cursor: Option<Bytes>, t: Table, visited: seq<Task>, seen: set<Task>)
  {
    && WellFormed(store)
    && Walking(view, tp, cursor, MAX_UINT, t, visited, seen)
    && Tasks(store) == WithoutVisited(t, contract, seen)
  }

  /** The iterator callback: delete the visited task if it is the contract's. */
  method DeleteIfOf<S>(
    ctx: Context<S>, live: bool, snapshot: Kv, key: Bytes, contract: Addr,
    ghost tp: byte, ghost cursor: Option<Bytes>, ghost t: Table, ghost visited: seq<Task>, ghost seen: set<Task>)
    returns (innerErr: Option<Error>)
    requires tp != TASK_UNDEFINED
    requires Deleting(View(live, snapshot, ctx.store), ctx.store, tp, contract, cursor, t, visited, seen)
    requires IsLeast(Ahead(View(live, snapshot, ctx.store), TypePrefix(tp), cursor), key)
    requires IsTaskKey(key)
    modifies ctx`store
    ensures innerErr.None? && Others(ctx.store) == old(Others(ctx.store))
    ensures Deleting(View(live, snapshot, ctx.store), ctx.store, tp, contract, Some(key), t,
                     visited + [ReadTask(key)], seen + {ReadTask(key)})
    ensures ReadTask(key) in DueSet(t, tp, MAX_UINT) - seen
  {
    ghost var view := View(live, snapshot, ctx.store);
    var task := ReadTask(key);
    WalkNext(view, tp, cursor, MAX_UINT, t, visited, seen, key);
    WithoutVisitedStep(t, contract, seen, task);
    innerErr := None;
    if task.contract == contract {
      var deleted := DeleteScheduledTask(ctx, task.tp, contract, task.height);
      innerErr := ErrOf(deleted);
    }
    WalkStep(view, View(live, snapshot, ctx.store), tp, cursor, MAX_UINT, t, visited, seen, key);
  }

  /** Delete every task of a type that belongs to a contract, while scanning. */
  method DeleteAllScheduledTasks<S>(ctx: Context<S>, tp: byte, contract: Addr, live: bool) returns (r: Result<()>)
    requires WellFormed(ctx.store)
    modifies ctx`store
    ensures r == if tp == TASK_UNDEFINED then Err(Invalid) else Ok(())
    ensures WellFormed(ctx.store) && Others(ctx.store) == old(Others(ctx.store))
    ensures Tasks(ctx.store) == if r.Err? then old(Tasks(ctx.store))
                                else WithoutContract(old(Tasks(ctx.store)), tp, contract)
  {
    var keyPrefix := BuildSchedulerTypeKeyPrefix(tp);
    if keyPrefix.Err? { return Err(keyPrefix.error); }
    var snapshot := ctx.store;
    ghost var t, others := Tasks(ctx.store), Others(ctx.store);
    ghost var visited: seq<Task>, seen: set<Task>, cursor: Option<Bytes> := [], {}, None;
    WalkStart(ctx.store, tp, MAX_UINT);
    NothingVisited(t, contract);
    var iter := Seek(ctx.store, keyPrefix.value, None);
    while iter.Some?
      invariant Others(ctx.store) == others
      invariant Deleting(View(live, snapshot, ctx.store), ctx.store, tp, contract, cursor, t, visited, seen)
      invariant iter == Seek(View(live, snapshot, ctx.store), keyPrefix.value, cursor)
      decreases DueSet(t, tp, MAX_UINT) - seen
    {
      var key := iter.value;
      UnderTypePrefix(View(live, snapshot, ctx.store), tp, cursor, key);
      var _ := DeleteIfOf(ctx, live, snapshot, key, contract, tp, cursor, t, visited, seen);
      visited, seen, cursor := visited + [ReadTask(key)], seen + {ReadTask(key)}, Some(key);
      iter := Seek(View(live, snapshot, ctx.store), keyPrefix.value, Some(key));
    }
    WalkEnd(View(live, snapshot, ctx.store), tp, cursor, MAX_UINT, t, visited, seen);
    WithoutAllVisited(t, tp, contract);
    return Ok(());
  }

  /** The table without the tasks of one type and contract. */
  function WithoutContract(t: Table, tp: byte, contract: Addr): Table {
    map x | x in t && !(x.tp == tp && x.contract == contract) :: t[x]
  }

  function WithoutVisited(t: Table, contract: Addr, seen: set<Task>): Table {
    map x | x in t && !(x.contract == contract && x in seen) :: t[x]
  }

  lemma NothingVisited(t: Table, contract: Addr)
    ensures WithoutVisited(t, contract, {}) == t
  {
  }

  lemma WithoutVisitedStep(t: Table, contract: Addr, seen: set<Task>, x: Task)
    ensures WithoutVisited(t, contract, seen + {x}) ==
            if x.contract == contract then WithoutVisited(t, contract, seen) - {x}
            else WithoutVisited(t, contract, seen)
  {
  }

  lemma WithoutAllVisited(t: Table, tp: byte, contract: Addr)
    ensures WithoutVisited(t, contract, DueSet(t, tp, MAX_UINT)) == WithoutContract(t, tp, contract)
  {
  }

  // -------------------------------------------------------------- execution

  /** What a task callback can change: the application and, when the contract
      bonds or unbonds, the delegated totals. */
  datatype World<S> = World(app: S, delegated: AmountTable)

  ghost function WorldOf<S>(ctx: Context<S>): World<S>
    requires Sound(ctx.store)
    reads ctx
  {
    World(ctx.app, RecordsOf(ctx.store).delegated)
  }

  /** How a task callback ends: normally, with an error, or in a panic. Each
      carries the state its writes have left in the branch. */
  datatype Outcome<S> = Done(state: S) | Failed(state: S, error: Error) | Panic(state: S)

  type Executor<!S> = (S, Addr) -> Outcome<S>

  datatype ExecResult = ExecResult(
    contract: Addr,
    execErr: Option<Error>,
    rescheduleErr: Option<Error>,
    deleteTaskErr: Option<Error>,
    gasLimit: u32,
    nextRunHeight: u64)

  /** Run a callback in a branch; a panic becomes an error. */
  method SafeExec<S>(cached: Context<S>, contract: Addr, cb: Executor<World<S>>) returns (err: Option<Error>)
    requires Sound(cached.store)
    modifies cached`store, cached`app
    ensures Sound(cached.store) && Rest(cached.store) == old(Rest(cached.store))
    ensures RecordsOf(cached.store) == old(RecordsOf(cached.store)).(delegated := WorldOf(cached).delegated)
    ensures var o := cb(old(WorldOf(cached)), contract);
            WorldOf(cached) == o.state && err == ErrorOf(o)
  {
    var totals := LoadAmounts(cached.store, DELEGATED);
    var o := cb(World(cached.app, totals), contract);
    TotalsWritten(cached.store, o.state.delegated);
    cached.app, cached.store := o.state.app, WithTotals(cached.store, o.state.delegated);
    match o {
      case Done(_) => err := None;
      case Failed(_, e) => err := Some(e);
      case Panic(_) => err := Some(Panicked);
    }
  }

  /** The state kept after a call. */
  function Kept<S>(was: S, o: Outcome<S>): S {
    if o.Done? then o.state else was
  }

  /** The committed state after running the tasks in order: a failed or panicked
      call leaves no trace. */
  function StateAfter<S>(s: S, ts: seq<Task>, cb: Executor<S>): S {
    if ts == [] then s
    else
      var before := StateAfter(s, ts[..|ts| - 1], cb);
      Kept(before, cb(before, ts[|ts| - 1].contract))
  }

  lemma StateAfterMore<S>(s: S, ts: seq<Task>, i: nat, j: nat, cb: Executor<S>)
    requires j == i + 1 <= |ts|
    ensures var w := StateAfter(s, ts[..i], cb);
            StateAfter(s, ts[..j], cb) == Kept(w, cb(w, ts[i].contract))
  {
    assert ts[..j][..i] == ts[..i] && ts[..j][i] == ts[i];
  }

  /** The tasks whose call succeeded when the list is run from `s`. */
  function Succeeded<S>(s: S, ts: seq<Task>, cb: Executor<S>): seq<Task> {
    if ts == [] then []
    else
      var init, last := ts[..|ts| - 1], ts[|ts| - 1];
      Succeeded(s, init, cb) + if cb(StateAfter(s, init, cb), last.contract).Done? then [last] else []
  }

  /** Running a list with every write kept. */
  function Unprotected<S>(s: S, ts: seq<Task>, cb: Executor<S>): S {
    if ts == [] then s
    else cb(Unprotected(s, ts[..|ts| - 1], cb), ts[|ts| - 1].contract).state
  }

  /** Failure isolation: for every mix of successes, errors and panics, the
      committed state is what a run of the successful calls alone leaves, and in
      that run each of them succeeds again. */
  lemma {:induction false} FailureIsolation<S>(s: S, ts: seq<Task>, cb: Executor<S>)
    ensures var ok := Succeeded(s, ts, cb);
            && StateAfter(s, ts, cb) == Unprotected(s, ok, cb)
            && forall i | 0 <= i < |ok| :: ok[i] in ts && cb(Unprotected(s, ok[..i], cb), ok[i].contract).Done?
  {
    if ts != [] {
      var init, last := ts[..|ts| - 1], ts[|ts| - 1];
      var before := Succeeded(s, init, cb);
      FailureIsolation(s, init, cb);
      var ok := Succeeded(s, ts, cb);
      if cb(StateAfter(s, init, cb), last.contract).Done? {
        assert ok == before + [last];
        assert ok[..|before|] == before;
      } else {
        assert ok == before;
      }
      forall i | 0 <= i < |before| ensures ok[..i] == before[..i] && ok[i] == before[i] {
      }
    }
  }

  /** The height of the next run in unsigned 64-bit arithmetic: a wrapped sum
      lies in the past. */
  function NextRun(now: Height, epochLength: u64): (r: u64)
    ensures r == if now + epochLength < TWO_64 then now + epochLength else now + epochLength - TWO_64
  {
    (now + epochLength) % TWO_64
  }

  function ErrorOf<S>(o: Outcome<S>): Option<Error> {
    match o
    case Done(_) => None
    case Failed(_, e) => Some(e)
    case Panic(_) => Some(Panicked)
  }

  /** What the pass reports about one task. */
  function ResultOf<S>(
    o: Outcome<S>, x: Task, repeat: bool, now: Height, epochLength: u64, gasLimit: u32): ExecResult
  {
    var next := NextRun(now, epochLength);
    var again := repeat && epochLength != 0;
    ExecResult(
      x.contract,
      ErrorOf(o),
      if again && next < now then Some(Invalid) else None,
      None,
      gasLimit,
      if again then next else 0)
  }

  /** What a result says: whose task it was and with which gas limit; no error
      exactly when the call was done, and otherwise its own or a panic; and for a
      repeating task where it goes next, which is refused exactly when the sum
      does not fit 64 bits. */
  lemma ResultMeans<S>(o: Outcome<S>, x: Task, repeat: bool, now: Height, epochLength: u64, gasLimit: u32)
    ensures var r := ResultOf(o, x, repeat, now, epochLength, gasLimit);
            && r.contract == x.contract && r.gasLimit == gasLimit && r.deleteTaskErr == None
            && (r.execErr == None <==> o.Done?)
            && (o.Failed? ==> r.execErr == Some(o.error))
            && (o.Panic? ==> r.execErr == Some(Panicked))
            && (!repeat || epochLength == 0 ==> r.nextRunHeight == 0 && r.rescheduleErr == None)
            && (repeat && epochLength != 0 ==>
                  && (r.nextRunHeight == now + epochLength <==> r.rescheduleErr == None)
                  && (r.rescheduleErr == None <==> now + epochLength < TWO_64)
                  && (r.rescheduleErr != None ==>
                        r.nextRunHeight == now + epochLength - TWO_64 && r.rescheduleErr == Some(Invalid)))
  {
  }

  /** The effect of one visit on the table. */
  function VisitTask(t: Table, x: Task, repeat: bool, now: Height, epochLength: u64): Table {
    (if repeat && epochLength != 0 && now + epochLength < TWO_64
     then Repeating(t, Task(x.tp, now + epochLength, x.contract)) else t) - {x}
  }

  /** Run one task in a branch of the state and commit on success only. */
  method RunTask<S>(ctx: Context<S>, contract: Addr, cb: Executor<World<S>>) returns (err: Option<Error>)
    requires Sound(ctx.store)
    modifies ctx`store, ctx`mem, ctx`app
    ensures Sound(ctx.store) && Rest(ctx.store) == old(Rest(ctx.store)) && ctx.mem == old(ctx.mem)
    ensures RecordsOf(ctx.store) == old(RecordsOf(ctx.store)).(delegated := WorldOf(ctx).delegated)
    ensures var o := cb(old(WorldOf(ctx)), contract);
            WorldOf(ctx) == Kept(old(WorldOf(ctx)), o) && err == ErrorOf(o)
  {
    var cachedCtx := ctx.CacheContext();
    err := SafeExec(cachedCtx, contract, cb);
    if err.None? {
      ctx.Commit(cachedCtx);
    }
  }

  /** The iterator callback of the pass: run the task, re-schedule it when it
      repeats, delete the entry. */
  method ExecTask<S>(ctx: Context<S>, x: Task, repeat: bool, epochLength: u64, cb: Executor<World<S>>)
    returns (result: ExecResult)
    requires Sound(ctx.store)
    requires x.tp != TASK_UNDEFINED && x.height <= ctx.height
    modifies ctx`store, ctx`mem, ctx`app
    ensures Sound(ctx.store) && Rest(ctx.store) == old(Rest(ctx.store)) && ctx.mem == old(ctx.mem)
    ensures var was, o := old(RecordsOf(ctx.store)), cb(old(WorldOf(ctx)), x.contract);
            && WorldOf(ctx) == Kept(old(WorldOf(ctx)), o)
            && RecordsOf(ctx.store) == Records(VisitTask(was.tasks, x, repeat, ctx.height, epochLength), was.caps,
                                               WorldOf(ctx).delegated)
            && result == ResultOf(o, x, repeat, ctx.height, epochLength, ctx.params.maxGas)
  {
    var err := RunTask(ctx, x.contract, cb);
    ghost var store := ctx.store;
    var nextRunHeight: u64, rescheduleErr, deleteTaskErr := Provision(ctx, x, repeat, epochLength);
    TasksApartFromAmounts(store, ctx.store);
    result := ExecResult(x.contract, err, rescheduleErr, deleteTaskErr, ctx.params.maxGas, nextRunHeight);
  }

  method Provision<S>(ctx: Context<S>, x: Task, repeat: bool, epochLength: u64)
    returns (nextRunHeight: u64, rescheduleErr: Option<Error>, deleteTaskErr: Option<Error>)
    requires WellFormed(ctx.store)
    requires x.tp != TASK_UNDEFINED && x.height <= ctx.height
    modifies ctx`store
    ensures WellFormed(ctx.store) && Others(ctx.store) == old(Others(ctx.store))
    ensures Tasks(ctx.store) == VisitTask(old(Tasks(ctx.store)), x, repeat, ctx.height, epochLength)
    ensures nextRunHeight == if repeat && epochLength != 0 then NextRun(ctx.height, epochLength) else 0
    ensures rescheduleErr == if repeat && epochLength != 0 && nextRunHeight < ctx.height then Some(Invalid) else None
    ensures deleteTaskErr == None
  {
    nextRunHeight, rescheduleErr := 0, None;
    if repeat && epochLength != 0 {
      nextRunHeight := NextRun(ctx.height, epochLength);
      var scheduled := ScheduleRepeatingTask(ctx, x.tp, x.contract, nextRunHeight);
      rescheduleErr := ErrOf(scheduled);
    }
    var deleted := DeleteScheduledTask(ctx, x.tp, x.contract, x.height);
    deleteTaskErr := ErrOf(deleted);
  }

  /** A visit leaves every other key up to the current height in place. */
  lemma VisitUndisturbing(store: Kv, store': Kv, x: Task, repeat: bool, now: Height, epochLength: u64)
    requires Tasks(store') == VisitTask(Tasks(store), x, repeat, now, epochLength)
    ensures SameBelow(store, store', now, TaskKey(x))
  {
    forall k | IsTaskKey(k) && ReadTask(k).height <= now && k != TaskKey(x) ensures k in store <==> k in store' {
      var y := ReadTask(k);
      ReadTaskRoundTrip(k);
      TasksAt(store, y);
      TasksAt(store', y);
    }
  }

  ghost predicate ResultsOf<S>(
    results: seq<ExecResult>, state0: S, ts: seq<Task>, t: Table, now: Height, epochLength: u64, gasLimit: u32,
    cb: Executor<S>)
  {
    && |results| == |ts|
    && forall i | 0 <= i < |ts| ::
         && ts[i] in t
         && results[i] ==
              ResultOf(cb(StateAfter(state0, ts[..i], cb), ts[i].contract), ts[i], t[ts[i]], now, epochLength, gasLimit)
  }

  lemma ResultsOfStep<S>(
    results: seq<ExecResult>, state0: S, ts: seq<Task>, t: Table, now: Height, epochLength: u64, gasLimit: u32,
    cb: Executor<S>, x: Task)
    requires ResultsOf(results, state0, ts, t, now, epochLength, gasLimit, cb)
    requires x in t
    ensures var before := StateAfter(state0, ts, cb);
            var o := cb(before, x.contract);
            && ResultsOf(results + [ResultOf(o, x, t[x], now, epochLength, gasLimit)],
                         state0, ts + [x], t, now, epochLength, gasLimit, cb)
            && StateAfter(state0, ts + [x], cb) == Kept(before, o)
  {
    assert (ts + [x])[..|ts|] == ts;
    forall i | 0 <= i < |ts| ensures (ts + [x])[..i] == ts[..i] { }
  }

  /** The iterator reads the original repeat flag of an unvisited due task, from
      a live view as well as from a snapshot. */
  lemma FlagUnchanged(
    live: bool, snapshot: Kv, store: Kv, t: Table, seen: set<Task>, x: Task, now: Height, epochLength: u64)
    requires Tasks(snapshot) == t && Tasks(store) == AfterVisits(t, seen, now, epochLength)
    requires x in t && x !in seen && x.height <= now
    ensures TaskKey(x) in View(live, snapshot, store)
    ensures IsRepeat(View(live, snapshot, store)[TaskKey(x)]) == t[x]
  {
    AfterVisitsStep(t, seen, x, now, epochLength);
    TasksAt(snapshot, x);
    TasksAt(store, x);
  }

  /** The state of a pass: the scan is in order and the table reflects exactly
      the visits made so far. */
  ghost predicate Passing(
    view: Kv, store: Kv, tp: byte, cursor: Option<Bytes>, now: Height, epochLength: u64, t: Table,
    visited: seq<Task>, seen: set<Task>)
  {
    && WellFormed(store)
    && Walking(view, tp, cursor, now, t, visited, seen)
    && Tasks(store) == AfterVisits(t, seen, now, epochLength)
  }

  lemma PassStep(
    live: bool, snapshot: Kv, store: Kv, store': Kv, tp: byte, cursor: Option<Bytes>, now: Height, epochLength: u64,
    t: Table, visited: seq<Task>, seen: set<Task>, k: Bytes)
    requires Passing(View(live, snapshot, store), store, tp, cursor, now, epochLength, t, visited, seen)
    requires IsLeast(Ahead(View(live, snapshot, store), TypePrefix(tp), cursor), k)
    requires IsTaskKey(k) && ReadTask(k).height <= now && ReadTask(k) in t
    requires WellFormed(store')
    requires Tasks(store') == VisitTask(Tasks(store), ReadTask(k), t[ReadTask(k)], now, epochLength)
    ensures Passing(View(live, snapshot, store'), store', tp, Some(k), now, epochLength, t,
                    visited + [ReadTask(k)], seen + {ReadTask(k)})
  {
    var x := ReadTask(k);
    WalkNext(View(live, snapshot, store), tp, cursor, now, t, visited, seen, k);
    VisitUndisturbing(store, store', x, t[x], now, epochLength);
    WalkStep(View(live, snapshot, store), View(live, snapshot, store'), tp, cursor, now, t, visited, seen, k);
    AfterVisitsStep(t, seen, x, now, epochLength);
  }

  /** One round of the pass. */
  method PassVisit<S>(
    ctx: Context<S>, live: bool, snapshot: Kv, key: Bytes, epochLength: u64, cb: Executor<World<S>>,
    ghost tp: byte, ghost cursor: Option<Bytes>, ghost t: Table, ghost visited: seq<Task>, ghost seen: set<Task>)
    returns (result: ExecResult)
    requires Sound(ctx.store) && tp != TASK_UNDEFINED && Tasks(snapshot) == t
    requires Passing(View(live, snapshot, ctx.store), ctx.store, tp, cursor, ctx.height, epochLength, t, visited, seen)
    requires IsLeast(Ahead(View(live, snapshot, ctx.store), TypePrefix(tp), cursor), key)
    requires IsTaskKey(key) && ReadTask(key).height <= ctx.height
    modifies ctx`store, ctx`mem, ctx`app
    ensures Sound(ctx.store) && Rest(ctx.store) == old(Rest(ctx.store)) && ctx.mem == old(ctx.mem)
    ensures Caps(ctx.store) == old(Caps(ctx.store))
    ensures Passing(View(live, snapshot, ctx.store), ctx.store, tp, Some(key), ctx.height, epochLength, t,
                    visited + [ReadTask(key)], seen + {ReadTask(key)})
    ensures ReadTask(key) in DueSet(t, tp, ctx.height) - seen
    ensures var o := cb(old(WorldOf(ctx)), ReadTask(key).contract);
            && WorldOf(ctx) == Kept(old(WorldOf(ctx)), o)
            && result == ResultOf(o, ReadTask(key), t[ReadTask(key)], ctx.height, epochLength, ctx.params.maxGas)
  {
    ghost var store0 := ctx.store;
    var task := ReadTask(key);
    WalkNext(View(live, snapshot, ctx.store), tp, cursor, ctx.height, t, visited, seen, key);
    FlagUnchanged(live, snapshot, ctx.store, t, seen, task, ctx.height, epochLength);
    result := ExecTask(ctx, task, IsRepeat(View(live, snapshot, ctx.store)[key]), epochLength, cb);
    PassStep(live, snapshot, store0, ctx.store, tp, cursor, ctx.height, epochLength, t, visited, seen, key);
  }

  /** Execute the due tasks of a type. Every due task is run once, in order;
      whatever the outcomes, the table ends up the same. */
  method ExecScheduledTasks<S>(ctx: Context<S>, tp: byte, epochLength: u64, cb: Executor<World<S>>, live: bool)
    returns (results: seq<ExecResult>, err: Option<Error>)
    requires Sound(ctx.store)
    modifies ctx`store, ctx`mem, ctx`app
    ensures Sound(ctx.store) && Rest(ctx.store) == old(Rest(ctx.store)) && ctx.mem == old(ctx.mem)
    ensures err == if tp == TASK_UNDEFINED then Some(Invalid) else None
    ensures err.Some? ==> results == [] && ctx.store == old(ctx.store) && ctx.app == old(ctx.app)
    ensures err.None? ==>
      var was, world := old(RecordsOf(ctx.store)), old(WorldOf(ctx));
      var due := Due(was.tasks, tp, ctx.height);
      && WorldOf(ctx) == StateAfter(world, due, cb)
      && RecordsOf(ctx.store) ==
           Records(AfterPass(was.tasks, tp, ctx.height, epochLength), was.caps, WorldOf(ctx).delegated)
      && ResultsOf(results, world, due, was.tasks, ctx.height, epochLength, ctx.params.maxGas, cb)
  {
    results := [];
    var keyPrefix := BuildSchedulerTypeKeyPrefix(tp);
    if keyPrefix.Err? { return [], Some(keyPrefix.error); }
    var snapshot := ctx.store;
    ghost var was, world, rest, mem := RecordsOf(ctx.store), WorldOf(ctx), Rest(ctx.store), ctx.mem;
    ghost var t := was.tasks;
    ghost var visited: seq<Task>, seen: set<Task>, cursor: Option<Bytes> := [], {}, None;
    WalkStart(ctx.store, tp, ctx.height);
    NoVisits(t, ctx.height, epochLength);
    var iter := Seek(ctx.store, keyPrefix.value, None);
    while iter.Some?
      invariant Sound(ctx.store) && Rest(ctx.store) == rest && Caps(ctx.store) == was.caps && ctx.mem == mem
      invariant Passing(View(live, snapshot, ctx.store), ctx.store, tp, cursor, ctx.height, epochLength, t,
                        visited, seen)
      invariant iter == Seek(View(live, snapshot, ctx.store), keyPrefix.value, cursor)
      invariant WorldOf(ctx) == StateAfter(world, visited, cb)
      invariant ResultsOf(results, world, visited, t, ctx.height, epochLength, ctx.params.maxGas, cb)
      decreases DueSet(t, tp, ctx.height) - seen
    {
      var key := iter.value;
      UnderTypePrefix(View(live, snapshot, ctx.store), tp, cursor, key);
      if ReadTask(key).height > ctx.height {
        break;
      }
      var result := PassVisit(ctx, live, snapshot, key, epochLength, cb, tp, cursor, t, visited, seen);
      ResultsOfStep(results, world, visited, t, ctx.height, epochLength, ctx.params.maxGas, cb, ReadTask(key));
      results := results + [result];
      visited, seen, cursor := visited + [ReadTask(key)], seen + {ReadTask(key)}, Some(key);
      iter := Seek(View(live, snapshot, ctx.store), keyPrefix.value, Some(key));
    }
    WalkEnd(View(live, snapshot, ctx.store), tp, cursor, ctx.height, t, visited, seen);
    return results, None;
  }

  lemma NoVisits(t: Table, now: Height, epochLength: u64)
    ensures AfterVisits(t, {}, now, epochLength) == t
  {
  }
}
