/** What a contract is told at the end of a block. */
module Attempts {
  import opened Bytes
  import opened Types
  import opened Order
  import opened Keys
  import opened Scheduler
  import opened SchedulerKeeper
  import opened Amounts
  import opened SlashCodec
  import opened Valset
  import opened ValsetKeeper
  import opened EndBlock
  import opened Runs
  import opened Delivery
  import Dec
  import Decimal

  // -------------------------------------------------- the events of the steps

  /** The events that the steps pipe. */
  ghost function EventsOf<S>(steps: seq<Step<S>>): set<Event> {
    set i | 0 <= i < |steps| && steps[i].Pipe? && Writable(steps[i].event) :: steps[i].event
  }

  ghost function EventOfStep<S>(step: Step<S>): set<Event> {
    if step.Pipe? && Writable(step.event) then {step.event} else {}
  }

  lemma EventsOfMore<S>(steps: seq<Step<S>>)
    requires steps != []
    ensures EventsOf(steps) == EventsOf(steps[..|steps| - 1]) + EventOfStep(steps[|steps| - 1])
  {
    var init := steps[..|steps| - 1];
    forall e ensures e in EventsOf(steps) <==> e in EventsOf(init) + EventOfStep(steps[|steps| - 1]) {
      if e in EventsOf(init) {
        var i :| 0 <= i < |init| && init[i].Pipe? && Writable(init[i].event) && init[i].event == e;
        assert steps[i] == init[i];
      }
      if e in EventsOf(steps) {
        var i :| 0 <= i < |steps| && steps[i].Pipe? && Writable(steps[i].event) && steps[i].event == e;
        if i < |init| { assert init[i] == steps[i]; }
      }
    }
  }

  lemma StepPipes<S>(cfg: Config<S>, st: Chain<S>, step: Step<S>)
    ensures PipeKeys(Apply(cfg, st, step).mem) == PipeKeys(st.mem) + KeysOfEvents(EventOfStep(step))
  {
    if step.Pipe? && Writable(step.event) {
      assert PIPED_VALSET_PREFIX <= EventKey(step.event);
      assert PipeKeys(st.mem[EventKey(step.event) := []]) == PipeKeys(st.mem) + {EventKey(step.event)};
    }
  }

  lemma KeysOfUnion(a: set<Event>, b: set<Event>)
    ensures KeysOfEvents(a + b) == KeysOfEvents(a) + KeysOfEvents(b)
  {
  }

  /** The pipe after some steps: what it held, and the events of the steps. */
  lemma {:induction false} StepsPipe<S>(cfg: Config<S>, st: Chain<S>, steps: seq<Step<S>>)
    ensures PipeKeys(After(cfg, st, steps).mem) == PipeKeys(st.mem) + KeysOfEvents(EventsOf(steps))
  {
    if steps == [] {
      assert KeysOfEvents(EventsOf(steps)) == {};
    } else {
      var init, last := steps[..|steps| - 1], steps[|steps| - 1];
      StepsPipe(cfg, st, init);
      StepPipes(cfg, After(cfg, st, init), last);
      EventsOfMore(steps);
      KeysOfUnion(EventsOf(init), EventOfStep(last));
    }
  }

  /** The report depends on nothing but the set of events: neither their order
      nor their repetition, nor anything else that happened in the block. */
  lemma SameEventsSameReport<S>(
    cfg: Config<S>, st: Chain<S>, steps: seq<Step<S>>, steps': seq<Step<S>>,
    view: StakingView, height: Height, time: i64)
    requires EventsOf(steps) == EventsOf(steps')
    ensures Report(view, height, time, After(cfg, st, steps).mem) ==
            Report(view, height, time, After(cfg, st, steps').mem)
  {
    StepsPipe(cfg, st, steps);
    StepsPipe(cfg, st, steps');
  }

  // ------------------------------------------------------ what a call is told

  /** What the staking module says in the world that the `k`-th update call finds. */
  ghost function ViewAt<S>(env: Env<S>, st: Chain<S>, k: nat): StakingView
    requires k < |UpdatesDue(st)|
  {
    env.view(UpdateWorld(env, st, k).app)
  }

  /** The report prepared for that contract. */
  ghost function CallReport<S>(env: Env<S>, st: Chain<S>, k: nat): Result<ValsetUpdate>
    requires k < |UpdatesDue(st)|
  {
    Prepared(ViewAt(env, st, k), UpdatesDue(st)[k].contract, st.height, st.time, st.mem)
  }

  /** Every slashed validator is known, and every amount is a number. */
  ghost predicate SlashesKnown(view: StakingView, events: set<Event>) {
    forall e | e in events && e.op == OP_SLASHED && e.info.Some? ::
      view.validator(e.val).Some? && Decimal.Parse(e.info.value.totalSlashAmount).Some?
  }

  lemma SharesKnown(view: StakingView, contract: Addr, r: ValsetUpdate, events: set<Event>, height: Height, time: i64)
    requires ListsSlashes(r.slashed, events, height, time)
    ensures AllShared(view, contract, r.slashed) <==> SlashesKnown(view, events)
  {
    if SlashesKnown(view, events) {
      forall i | 0 <= i < |r.slashed| ensures SlashShare(view, contract, r.slashed[i]).Ok? {
        assert r.slashed[i] in r.slashed;
      }
    }
    if AllShared(view, contract, r.slashed) {
      forall e | e in events && e.op == OP_SLASHED && e.info.Some?
        ensures view.validator(e.val).Some? && Decimal.Parse(e.info.value.totalSlashAmount).Some?
      {
        assert ReportedSlash(e, height, time) in r.slashed;
      }
    }
  }

  /** The report `r` of the events, with the slash amounts of the contract. */
  ghost predicate TellsOf(
    told: ValsetUpdate, r: ValsetUpdate, view: StakingView, contract: Addr, events: set<Event>,
    height: Height, time: i64)
  {
    && ReportsExactly(view, r, events, height, time)
    && told == r.(slashed := Shares(view, contract, r.slashed))
  }

  /** A report is made for a contract exactly when every validator it has to
      look up is known and every slash amount is a number; it then tells of
      exactly the given events. */
  lemma PreparedContents(
    view: StakingView, contract: Addr, height: Height, time: i64, mem: Kv, events: set<Event>)
    requires Holds(mem, events)
    ensures var told := Prepared(view, contract, height, time, mem);
            && (told.Ok? <==> ValidatorsKnown(view, events) && SlashesKnown(view, events))
            && (told.Ok? ==>
                  TellsOf(told.value, Report(view, height, time, mem).value, view, contract, events, height, time))
  {
    ReportContents(view, height, time, mem, events);
    var r := Report(view, height, time, mem);
    if r.Ok? {
      NoErrorIff(view, contract, r.value.slashed);
      SharesKnown(view, contract, r.value, events, height, time);
    }
  }

  /** What the `k`-th call is told: of exactly the given events, unless a
      validator is unknown or an amount is no number. */
  ghost predicate CallTells<S>(env: Env<S>, st: Chain<S>, events: set<Event>, k: nat)
    requires k < |UpdatesDue(st)|
  {
    var view, contract, told := ViewAt(env, st, k), UpdatesDue(st)[k].contract, CallReport(env, st, k);
    && (told.Ok? <==> ValidatorsKnown(view, events) && SlashesKnown(view, events))
    && (told.Ok? ==> exists r :: TellsOf(told.value, r, view, contract, events, st.height, st.time))
  }

  ghost predicate EveryCallTells<S>(env: Env<S>, st: Chain<S>, events: set<Event>) {
    forall k: nat | k < |UpdatesDue(st)| :: CallTells(env, st, events, k)
  }

  lemma HoldingCallTells<S>(env: Env<S>, st: Chain<S>, events: set<Event>, k: nat)
    requires Holds(st.mem, events) && k < |UpdatesDue(st)|
    ensures CallTells(env, st, events, k)
  {
    PreparedContents(ViewAt(env, st, k), UpdatesDue(st)[k].contract, st.height, st.time, st.mem, events);
  }

  lemma HoldingCallsTell<S>(env: Env<S>, st: Chain<S>, events: set<Event>)
    requires Holds(st.mem, events)
    ensures EveryCallTells(env, st, events)
  {
    forall k: nat | k < |UpdatesDue(st)| ensures CallTells(env, st, events, k) {
      HoldingCallTells(env, st, events, k);
    }
  }

  lemma StepsHold<S>(cfg: Config<S>, at: Chain<S>, steps: seq<Step<S>>, waiting: set<Event>)
    requires Holds(at.mem, waiting)
    requires forall e | e in EventsOf(steps) :: Deliverable(e)
    ensures Holds(After(cfg, at, steps).mem, waiting + EventsOf(steps))
  {
    StepsPipe(cfg, at, steps);
    KeysOfUnion(waiting, EventsOf(steps));
  }

  /** The events in the pipe at the start of the `i`-th block of a run: those
      piped behind the end blocker of the block before. */
  ghost function Waiting<S>(blocks: seq<Block<S>>, first: set<Event>, i: nat): set<Event>
    requires i <= |blocks|
  {
    if i == 0 then first else EventsOf(blocks[i - 1].post)
  }

  /** The events its end blocker reports. */
  ghost function Gathered<S>(blocks: seq<Block<S>>, first: set<Event>, i: nat): set<Event>
    requires i < |blocks|
  {
    Waiting(blocks, first, i) + EventsOf(blocks[i].pre)
  }

  /** Behind an end blocker the pipe holds what the steps there have piped. */
  lemma NextHolds<S>(cfg: Config<S>, at: Chain<S>, b: Block<S>)
    requires at.height < LAST_HEIGHT && forall e | e in EventsOf(b.post) :: Deliverable(e)
    ensures Holds(Next(cfg, at, b).mem, EventsOf(b.post))
  {
    var end := Ending(cfg, at, b);
    assert PipeKeys(end.mem) == KeysOfEvents({});
    StepsHold(cfg, end, b.post, {});
    assert {} + EventsOf(b.post) == EventsOf(b.post);
  }

  lemma WaitingHolds<S>(cfg: Config<S>, st: Chain<S>, blocks: seq<Block<S>>, first: set<Event>, i: nat)
    requires i < |blocks| && st.height + |blocks| <= LAST_HEIGHT && Holds(st.mem, first)
    requires forall e | e in Waiting(blocks, first, i) :: Deliverable(e)
    ensures Holds(At(cfg, st, blocks, i).mem, Waiting(blocks, first, i))
  {
    if i > 0 {
      AtNext(cfg, st, blocks, i - 1, i);
      NextHolds(cfg, At(cfg, st, blocks, i - 1), blocks[i - 1]);
    }
  }

  lemma RunHolds<S>(cfg: Config<S>, st: Chain<S>, blocks: seq<Block<S>>, first: set<Event>, i: nat)
    requires i < |blocks| && st.height + |blocks| <= LAST_HEIGHT && Holds(st.mem, first)
    requires forall e | e in Gathered(blocks, first, i) :: Deliverable(e)
    ensures Holds(Collected(cfg, At(cfg, st, blocks, i), blocks[i]).mem, Gathered(blocks, first, i))
  {
    WaitingHolds(cfg, st, blocks, first, i);
    StepsHold(cfg, At(cfg, st, blocks, i), blocks[i].pre, Waiting(blocks, first, i));
  }

  /** In every block of a run whose events are the module's own, every contract
      called is told of exactly the events piped since the last end blocker. */
  lemma EveryCallOfARun<S>(cfg: Config<S>, st: Chain<S>, blocks: seq<Block<S>>, first: set<Event>, i: nat)
    requires i < |blocks| && st.height + |blocks| <= LAST_HEIGHT && Holds(st.mem, first)
    requires forall e | e in Gathered(blocks, first, i) :: Deliverable(e)
    ensures EveryCallTells(cfg.env, Collected(cfg, At(cfg, st, blocks, i), blocks[i]), Gathered(blocks, first, i))
  {
    RunHolds(cfg, st, blocks, first, i);
    HoldingCallsTell(cfg.env, Collected(cfg, At(cfg, st, blocks, i), blocks[i]), Gathered(blocks, first, i));
  }

  // -------------------------------------------- the way of one event

  /** What a contract is told of a bonded or modified validator: its operator and
      its commission. */
  ghost predicate NamesValidator(data: seq<WasmValidator>, view: StakingView, val: Addr) {
    && view.validator(val).Some?
    && var v := view.validator(val).value;
    && WasmValidator(address := v.operator, commission := v.rate, maxCommission := v.maxRate,
                     maxChangeRate := v.maxChangeRate) in data
  }

  /** What a contract is told of a slash: as the amount, its part by its own
      delegation to the validator, none of which counts as zero shares. */
  ghost predicate NamesSlash(
    slashed: seq<ValidatorSlash>, view: StakingView, contract: Addr, val: Addr, i: SlashInfo, height: Height, time: i64)
  {
    && view.validator(val).Some?
    && Decimal.Parse(i.totalSlashAmount).Some?
    && var shares, total := view.delegation(contract, val), Decimal.Parse(i.totalSlashAmount).value;
    && var mine, all := if shares.Some? then shares.value else 0, view.validator(val).value.delegatorShares;
    && var amount: int := if total < 0 then -(Dec.DelegatorSlash(mine, all, -total) as int)
                          else Dec.DelegatorSlash(mine, all, total);
    && ValidatorSlash(validatorAddr := val, height := height, time := time, infractionHeight := i.power,
                      infractionTime := 0, power := i.infractionHeight, slashAmount := Decimal.Text(amount),
                      slashRatio := i.slashFraction) in slashed
  }

  /** The report names the event in the list of its category: a validator by its
      address, or by its data where the staking module is asked for them, a slash
      with the part of the contract. */
  ghost predicate Names(
    told: ValsetUpdate, view: StakingView, contract: Addr, e: Event, height: Height, time: i64)
  {
    && (e.op == OP_BONDED ==> NamesValidator(told.additions, view, e.val))
    && (e.op == OP_UNBONDED ==> e.val in told.removals)
    && (e.op == OP_MODIFIED ==> NamesValidator(told.updated, view, e.val))
    && (e.op == OP_JAILED ==> e.val in told.jailed)
    && (e.op == OP_UNJAILED ==> e.val in told.unjailed)
    && (e.op == OP_TOMBSTONED ==> e.val in told.tombstoned)
    && (e.op == OP_SLASHED ==>
          e.info.Some? && NamesSlash(told.slashed, view, contract, e.val, e.info.value, height, time))
  }

  lemma ToldSlash(
    told: ValsetUpdate, r: ValsetUpdate, view: StakingView, contract: Addr, events: set<Event>, e: Event,
    height: Height, time: i64)
    requires TellsOf(told, r, view, contract, events, height, time)
    requires SlashesKnown(view, events) && e in events && e.op == OP_SLASHED && e.info.Some?
    ensures NamesSlash(told.slashed, view, contract, e.val, e.info.value, height, time)
  {
    var z := ReportedSlash(e, height, time);
    assert z in r.slashed;
    var i :| 0 <= i < |r.slashed| && r.slashed[i] == z;
    assert Shares(view, contract, r.slashed)[i] == ShareOf(view, contract, z);
    assert ShareOf(view, contract, z) in told.slashed;
  }

  lemma ToldNames(
    told: ValsetUpdate, r: ValsetUpdate, view: StakingView, contract: Addr, events: set<Event>, e: Event,
    height: Height, time: i64)
    requires TellsOf(told, r, view, contract, events, height, time)
    requires ValidatorsKnown(view, events) && SlashesKnown(view, events) && e in events && Deliverable(e)
    ensures Names(told, view, contract, e, height, time)
  {
    assert PipedFor(events, e.op, e.val);
    if NeedsValidator(e.op) {
      var w := Looked(view, e.val).value;
      assert Some(w) == Looked(view, e.val);
    }
    if e.op == OP_SLASHED { ToldSlash(told, r, view, contract, events, e, height, time); }
  }

  /** The `k`-th call goes to the contract and hands over a report that names
      the event; there is no report exactly when a validator that was bonded,
      modified or slashed is unknown, or an amount is no number. */
  ghost predicate Tells<S>(env: Env<S>, st: Chain<S>, events: set<Event>, k: nat, e: Event, c: Addr) {
    && k < |UpdatesDue(st)| && UpdatesDue(st)[k].contract == c
    && var view, told := ViewAt(env, st, k), CallReport(env, st, k);
    && (told.Ok? <==> ValidatorsKnown(view, events) && SlashesKnown(view, events))
    && (told.Ok? ==>
          Names(told.value, view, c, e, st.height, st.time) && HandedOver(env, st, k, told.value))
  }

  /** The message with this report has been sent to the contract of the `k`-th
      update task, and what it did is kept if it succeeded. */
  ghost predicate HandedOver<S>(env: Env<S>, st: Chain<S>, k: nat, told: ValsetUpdate)
    requires k < |UpdatesDue(st)|
  {
    var w, w' := UpdateWorld(env, st, k), UpdateWorld(env, st, k + 1);
    var o := env.sudo(w, st.records.caps, UpdatesDue(st)[k].contract, ValsetUpdateMsg(told));
    w' == if o.Done? then o.state else w
  }

  lemma ReportIsHandedOver<S>(env: Env<S>, st: Chain<S>, k: nat)
    requires k < |UpdatesDue(st)| && CallReport(env, st, k).Ok?
    ensures HandedOver(env, st, k, CallReport(env, st, k).value)
  {
    NextUpdateWorld(env, st, k, k + 1);
    UpdateCallIs(env, st, UpdateWorld(env, st, k), UpdatesDue(st)[k].contract);
  }

  lemma OwedIsTold<S>(env: Env<S>, st: Chain<S>, events: set<Event>, e: Event, c: Addr) returns (k: nat)
    requires Owed(st, e, c) && Holds(st.mem, events) && e in events
    ensures Tells(env, st, events, k, e, c)
  {
    var h: u64 :| h <= st.height && Task(TASK_VALSET_UPDATE, h, c) in st.records.tasks;
    TaskIsCalled(st, Task(TASK_VALSET_UPDATE, h, c));
    var i: int :| 0 <= i < |UpdatesDue(st)| && UpdatesDue(st)[i].contract == c;
    k := i;
    HoldingCallsTell(env, st, events);
    assert CallTells(env, st, events, k);
    var told := CallReport(env, st, k);
    if told.Ok? {
      var r :| TellsOf(told.value, r, ViewAt(env, st, k), c, events, st.height, st.time);
      ToldNames(told.value, r, ViewAt(env, st, k), c, events, e, st.height, st.time);
      ReportIsHandedOver(env, st, k);
    }
  }

  lemma PipedIsGathered<S>(blocks: seq<Block<S>>, first: set<Event>, i: nat, steps: seq<Step<S>>, j: nat)
    requires i < |blocks| && j < |steps| && steps[j].Pipe? && Writable(steps[j].event)
    requires steps == blocks[i].pre || (i > 0 && steps == blocks[i - 1].post)
    ensures steps[j].event in Gathered(blocks, first, i)
  {
    assert steps[j].event in EventsOf(steps);
  }

  /** From the event to the contract: in any block of a run, an event piped by
      step `j` while the cap of the contract is positive is named in what the
      end blocker of the block tells that contract. */
  lemma PipedIsTold<S>(
    cfg: Config<S>, st: Chain<S>, blocks: seq<Block<S>>, first: set<Event>, i: nat, j: nat, e: Event, c: Addr)
    returns (k: nat)
    requires i < |blocks| && st.height + |blocks| <= LAST_HEIGHT && Holds(st.mem, first)
    requires forall x | x in Gathered(blocks, first, i) :: Deliverable(x)
    requires j < |blocks[i].pre| && blocks[i].pre[j] == Pipe(e) && Writable(e)
    requires Amount(After(cfg, At(cfg, st, blocks, i), blocks[i].pre[..j]).records.caps, c) > 0
    ensures Tells(cfg.env, Collected(cfg, At(cfg, st, blocks, i), blocks[i]), Gathered(blocks, first, i), k, e, c)
  {
    var at := At(cfg, st, blocks, i);
    RunHolds(cfg, st, blocks, first, i);
    PipedIsGathered(blocks, first, i, blocks[i].pre, j);
    OwedAfter(cfg, at, blocks[i].pre, j, e, c);
    k := OwedIsTold(cfg.env, Collected(cfg, at, blocks[i]), Gathered(blocks, first, i), e, c);
  }

  lemma OwedBehind<S>(
    cfg: Config<S>, st: Chain<S>, blocks: seq<Block<S>>, i: nat, j: nat, e: Event, c: Addr)
    requires i + 1 < |blocks| && st.height + |blocks| <= LAST_HEIGHT
    requires j < |blocks[i].post| && blocks[i].post[j] == Pipe(e) && Writable(e)
    requires var end := Ending(cfg, At(cfg, st, blocks, i), blocks[i]);
             Amount(After(cfg, end, blocks[i].post[..j]).records.caps, c) > 0
    ensures Owed(Collected(cfg, At(cfg, st, blocks, i + 1), blocks[i + 1]), e, c)
  {
    AtNext(cfg, st, blocks, i, i + 1);
    OwedInNextBlock(cfg, At(cfg, st, blocks, i), blocks[i], blocks[i + 1], j, e, c);
  }

  /** ... and one piped behind the end blocker is named by the next one. */
  lemma PipedBehindIsTold<S>(
    cfg: Config<S>, st: Chain<S>, blocks: seq<Block<S>>, first: set<Event>, i: nat, j: nat, e: Event, c: Addr)
    returns (k: nat)
    requires i + 1 < |blocks| && st.height + |blocks| <= LAST_HEIGHT && Holds(st.mem, first)
    requires forall x | x in Gathered(blocks, first, i + 1) :: Deliverable(x)
    requires j < |blocks[i].post| && blocks[i].post[j] == Pipe(e) && Writable(e)
    requires var end := Ending(cfg, At(cfg, st, blocks, i), blocks[i]);
             Amount(After(cfg, end, blocks[i].post[..j]).records.caps, c) > 0
    ensures Tells(cfg.env, Collected(cfg, At(cfg, st, blocks, i + 1), blocks[i + 1]), Gathered(blocks, first, i + 1),
                  k, e, c)
  {
    var end := Collected(cfg, At(cfg, st, blocks, i + 1), blocks[i + 1]);
    RunHolds(cfg, st, blocks, first, i + 1);
    PipedIsGathered(blocks, first, i + 1, blocks[i].post, j);
    OwedBehind(cfg, st, blocks, i, j, e, c);
    k := OwedIsTold(cfg.env, end, Gathered(blocks, first, i + 1), e, c);
  }
}
