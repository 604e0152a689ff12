/** Piping validator-set events, notifying contracts, and reporting. */
module ValsetKeeper {
  import opened Bytes
  import opened Types
  import opened Order
  import opened Keys
  import opened Scheduler
  import opened SchedulerKeeper
  import opened Amounts
  import opened CapKeeper
  import opened SlashCodec
  import opened Valset
  import Decimal

  // ------------------------------------------------------------ piping

  /** Contracts that may stake at the moment. */
  function Enabled(caps: AmountTable): set<Addr> {
    set c | c in caps && caps[c] > 0
  }

  function UpdateTasks(cs: set<Addr>, height: Height): set<Task> {
    set c | c in cs :: Task(TASK_VALSET_UPDATE, height, c)
  }

  /** Several one-shot registrations; existing entries win. */
  function OneShots(t: Table, xs: set<Task>): Table {
    (map x | x in xs :: false) + t
  }

  /** The table after notifying the contracts `cs`. */
  function Notified(t: Table, cs: set<Addr>, height: Height): Table {
    OneShots(t, UpdateTasks(cs, height))
  }

  lemma NotifiedOne(t: Table, cs: set<Addr>, c: Addr, height: Height)
    ensures Notified(t, cs + {c}, height) ==
            OneShot(Notified(t, cs, height), Task(TASK_VALSET_UPDATE, height, c))
  {
  }

  /** `t'` is `t` with one more update task at the height for every contract with
      a positive cap; an entry that was there is as it was, a new one does not
      repeat. */
  ghost predicate Notifies(t: Table, t': Table, caps: AmountTable, height: Height) {
    forall x ::
      && (x in t' <==> x in t || (x.tp == TASK_VALSET_UPDATE && x.height == height && Amount(caps, x.contract) > 0))
      && (x in t' ==> t'[x] == (x in t && t[x]))
  }

  lemma NotifiedNotifies(t: Table, caps: AmountTable, height: Height)
    ensures Notifies(t, Notified(t, Enabled(caps), height), caps, height)
  {
    var t' := Notified(t, Enabled(caps), height);
    forall x
      ensures x in t' <==> x in t || (x.tp == TASK_VALSET_UPDATE && x.height == height && Amount(caps, x.contract) > 0)
      ensures x in t' ==> t'[x] == (x in t && t[x])
    {
      if x.tp == TASK_VALSET_UPDATE && x.height == height {
        assert x == Task(TASK_VALSET_UPDATE, height, x.contract);
      }
    }
  }

  /** Schedule an update callback for every contract with a positive cap. */
  method NotifyContracts<S>(ctx: Context<S>) returns (innerErr: Option<Error>)
    requires Sound(ctx.store)
    modifies ctx`store
    ensures Sound(ctx.store) && innerErr.None?
    ensures RecordsOf(ctx.store) ==
            var was := old(RecordsOf(ctx.store));
            was.(tasks := Notified(was.tasks, Enabled(was.caps), ctx.height))
  {
    ghost var records := RecordsOf(ctx.store);
    ghost var left, cursor: Option<Bytes> := records.caps.Keys, None;
    innerErr := None;
    NotifyStart(ctx.store, ctx.height);
    var iter := Seek(ctx.store, [CAP], None);
    while iter.Some?
      invariant innerErr.None?
      invariant Notifying(ctx.store, records, cursor, left, ctx.height)
      invariant iter == Seek(ctx.store, [CAP], cursor)
      decreases left
    {
      var key := iter.value;
      innerErr := NotifyOne(ctx, key, records, cursor, left);
      left, cursor := left - {key[1..]}, Some(key);
      iter := Seek(ctx.store, [CAP], Some(key));
    }
    NotifyEnd(ctx.store, records, cursor, left, ctx.height);
  }

  lemma NotifyStart(store: Kv, height: Height)
    requires Sound(store)
    ensures Notifying(store, RecordsOf(store), None, RecordsOf(store).caps.Keys, height)
  {
    LeftStart(store);
    assert Enabled(Caps(store)) - Caps(store).Keys == {};
    assert UpdateTasks({}, height) == {};
  }

  lemma NotifyEnd(store: Kv, records: Records, cursor: Option<Bytes>, left: set<Addr>, height: Height)
    requires Notifying(store, records, cursor, left, height)
    requires Ahead(store, [CAP], cursor) == {}
    ensures RecordsOf(store) == records.(tasks := Notified(records.tasks, Enabled(records.caps), height))
  {
    LeftEnd(store, cursor, left);
    assert Enabled(records.caps) - {} == Enabled(records.caps);
  }

  /** The contracts that are not in `left` have been notified. */
  ghost predicate Notifying(store: Kv, records: Records, cursor: Option<Bytes>, left: set<Addr>, height: Height) {
    && Sound(store)
    && Left(store, cursor, left)
    && RecordsOf(store) == records.(tasks := Notified(records.tasks, Enabled(records.caps) - left, height))
  }

  /** The iterator callback. */
  method NotifyOne<S>(
    ctx: Context<S>, key: Bytes, ghost records: Records, ghost cursor: Option<Bytes>, ghost left: set<Addr>)
    returns (innerErr: Option<Error>)
    requires Notifying(ctx.store, records, cursor, left, ctx.height)
    requires IsLeast(Ahead(ctx.store, [CAP], cursor), key)
    modifies ctx`store
    ensures innerErr.None? && key != [] && key[1..] in left
    ensures Notifying(ctx.store, records, Some(key), left - {key[1..]}, ctx.height)
  {
    ghost var before := ctx.store;
    LeftStep(ctx.store, cursor, left, key);
    var contract := key[1..];
    innerErr := None;
    if MustLoadInt(ctx.store, key) > 0 {
      var r := ScheduleOneShotTask(ctx, TASK_VALSET_UPDATE, contract, ctx.height);
      innerErr := ErrOf(r);
      NotifiedEnabled(before, ctx.store, records, cursor, left, key, ctx.height);
    } else {
      assert Enabled(records.caps) - (left - {contract}) == Enabled(records.caps) - left;
    }
  }

  lemma NotifiedEnabled(
    store: Kv, store': Kv, records: Records, cursor: Option<Bytes>, left: set<Addr>, key: Bytes, height: Height)
    requires Notifying(store, records, cursor, left, height) && key != []
    requires Left(store, Some(key), left - {key[1..]}) && key[1..] in left && key[1..] in Enabled(records.caps)
    requires WellFormed(store') && Others(store') == Others(store)
    requires Tasks(store') == OneShot(Tasks(store), Task(TASK_VALSET_UPDATE, height, key[1..]))
    ensures Notifying(store', records, Some(key), left - {key[1..]}, height)
  {
    var contract := key[1..];
    var done := Enabled(records.caps) - left;
    TasksApartFromAmounts(store, store');
    LeftUndisturbed(store, store', Some(key), left - {contract});
    assert Tasks(store') == Notified(records.tasks, Enabled(records.caps) - (left - {contract}), height) by {
      assert Enabled(records.caps) - (left - {contract}) == done + {contract};
      NotifiedOne(records.tasks, done, contract, height);
    }
  }

  /** Store an event for the report of this block and make sure that every
      contract that may stake is called for it. */
  method SendAsync<S>(ctx: Context<S>, op: byte, val: Addr, info: Option<SlashInfo>) returns (r: Result<()>)
    requires Sound(ctx.store)
    modifies ctx`store, ctx`mem
    ensures Sound(ctx.store)
    ensures r == if Writable(Event(op, val, info)) then Ok(()) else Err(Panicked)
    ensures ctx.mem == if r.Ok? then old(ctx.mem)[EventKey(Event(op, val, info)) := []] else old(ctx.mem)
    ensures RecordsOf(ctx.store) ==
            var was := old(RecordsOf(ctx.store));
            if r.Ok? then was.(tasks := Notified(was.tasks, Enabled(was.caps), ctx.height)) else was
    ensures r.Ok? ==> Notifies(old(Tasks(ctx.store)), Tasks(ctx.store), old(Caps(ctx.store)), ctx.height)
  {
    NotifiedNotifies(Tasks(ctx.store), Caps(ctx.store), ctx.height);
    var key := BuildPipedValsetOpKey(op, val, info);
    if key.Err? { return Err(key.error); }
    ctx.mem := ctx.mem[key.value := []];
    var _ := NotifyContracts(ctx);
    return Ok(());
  }

  /** Pipe a slash event. */
  method ScheduleSlashed<S>(
    ctx: Context<S>, val: Addr, power: i64, height: i64, totalSlashAmount: int, slashRatio: Bytes)
    returns (r: Result<()>)
    requires Sound(ctx.store)
    modifies ctx`store, ctx`mem
    ensures Sound(ctx.store)
    ensures r == if |val| <= 255 then Ok(()) else Err(Panicked)
    ensures ctx.mem ==
            if r.Ok? then old(ctx.mem)[EventKey(SlashEvent(val, power, height, totalSlashAmount, slashRatio)) := []]
            else old(ctx.mem)
    ensures RecordsOf(ctx.store) ==
            var was := old(RecordsOf(ctx.store));
            if r.Ok? then was.(tasks := Notified(was.tasks, Enabled(was.caps), ctx.height)) else was
  {
    var slashInfo := SlashInfo(height, power, Decimal.Text(totalSlashAmount), slashRatio);
    r := SendAsync(ctx, OP_SLASHED, val, Some(slashInfo));
  }

  function SlashEvent(val: Addr, power: i64, height: i64, totalSlashAmount: int, slashRatio: Bytes): Event {
    Event(OP_SLASHED, val, Some(SlashInfo(height, power, Decimal.Text(totalSlashAmount), slashRatio)))
  }

  // ------------------------------------------------------------ reporting

  /** One entry of the pipe: decode it and append it to the list of its kind. */
  method AddOperation(
    view: StakingView, height: Height, time: i64, r: ValsetUpdate, key: Bytes, ghost shown: seq<Bytes>)
    returns (acc: Result<ValsetUpdate>)
    requires key != [] && Ok(r) == Fold(view, height, time, shown)
    ensures acc == Fold(view, height, time, shown + [key])
  {
    assert (shown + [key])[..|shown|] == shown;
    var p := ReadPiped(key[1..]);
    if p.Err? { return Err(p.error); }
    acc := AddPiped(view, height, time, r, p.value);
  }

  /** Aggregate the piped events of the block. */
  method ValsetUpdateReport<S>(ctx: Context<S>, view: StakingView) returns (r: Result<ValsetUpdate>)
    ensures r == Report(view, ctx.height, ctx.time, ctx.mem)
  {
    r := IteratePipedValsetOperations(view, ctx.height, ctx.time, ctx.mem);
  }

  /** The scan of the pipe with the callback of the report. */
  method IteratePipedValsetOperations(view: StakingView, height: Height, time: i64, mem: Kv)
    returns (r: Result<ValsetUpdate>)
    ensures r == Report(view, height, time, mem)
  {
    r := Ok(EMPTY_REPORT);
    ghost var shown: seq<Bytes>, cursor: Option<Bytes> := [], None;
    ReadStart(mem, PIPED_VALSET_PREFIX);
    var iter := Seek(mem, PIPED_VALSET_PREFIX, None);
    while iter.Some?
      invariant Reading(mem, PIPED_VALSET_PREFIX, cursor, shown)
      invariant iter == Seek(mem, PIPED_VALSET_PREFIX, cursor)
      invariant r.Ok? && r == Fold(view, height, time, shown)
      decreases Ahead(mem, PIPED_VALSET_PREFIX, cursor)
    {
      var key := iter.value;
      r := AddOperation(view, height, time, r.value, key, shown);
      ReadStep(mem, PIPED_VALSET_PREFIX, cursor, shown, key);
      shown, cursor := shown + [key], Some(key);
      if r.Err? {
        ReportFails(view, height, time, mem, cursor, shown);
        return;
      }
      iter := Seek(mem, PIPED_VALSET_PREFIX, Some(key));
    }
    ReadEnd(mem, PIPED_VALSET_PREFIX, cursor, shown);
  }

  lemma ReportFails(view: StakingView, height: Height, time: i64, mem: Kv, cursor: Option<Bytes>, shown: seq<Bytes>)
    requires Reading(mem, PIPED_VALSET_PREFIX, cursor, shown)
    requires Fold(view, height, time, shown).Err?
    ensures Report(view, height, time, mem) == Fold(view, height, time, shown)
  {
    ReadPrefix(mem, PIPED_VALSET_PREFIX, cursor, shown);
    var keys := Sorted(PipeKeys(mem));
    assert keys[..|shown|] == shown;
    FoldErrorSticks(view, height, time, keys, |shown|);
  }

  /** Empty the pipe: collect the keys, then delete them. */
  method ClearPipedValsetOperations<S>(ctx: Context<S>)
    modifies ctx`mem
    ensures PipeKeys(ctx.mem) == {}
    ensures ctx.mem == old(ctx.mem) - old(PipeKeys(ctx.mem))
  {
    ghost var mem := ctx.mem;
    var keys: seq<Bytes> := [];
    ghost var cursor: Option<Bytes> := None;
    ReadStart(ctx.mem, PIPED_VALSET_PREFIX);
    var iter := Seek(ctx.mem, PIPED_VALSET_PREFIX, None);
    while iter.Some?
      invariant ctx.mem == mem
      invariant Reading(ctx.mem, PIPED_VALSET_PREFIX, cursor, keys)
      invariant iter == Seek(ctx.mem, PIPED_VALSET_PREFIX, cursor)
      decreases Ahead(ctx.mem, PIPED_VALSET_PREFIX, cursor)
    {
      var key := iter.value;
      ReadStep(ctx.mem, PIPED_VALSET_PREFIX, cursor, keys, key);
      keys := keys + [key];
      cursor := Some(key);
      iter := Seek(ctx.mem, PIPED_VALSET_PREFIX, Some(key));
    }
    ReadEnd(ctx.mem, PIPED_VALSET_PREFIX, cursor, keys);
    DeleteKeys(ctx, keys);
    assert Elems(keys) == PipeKeys(mem);
  }

  function Elems(keys: seq<Bytes>): set<Bytes> {
    set k | k in keys
  }

  method DeleteKeys<S>(ctx: Context<S>, keys: seq<Bytes>)
    modifies ctx`mem
    ensures ctx.mem == old(ctx.mem) - Elems(keys)
  {
    ghost var mem := ctx.mem;
    for i := 0 to |keys|
      invariant ctx.mem == mem - Elems(keys[..i])
    {
      assert Elems(keys[..i + 1]) == Elems(keys[..i]) + {keys[i]};
      ctx.mem := ctx.mem - {keys[i]};
    }
    assert keys[..|keys|] == keys;
  }

  // ------------------------------------------------- the staking decorator

  /** What the decorated staking keeper does with a slash: the operator of the
      slashed validator, if it is known, and the amount slashed. */
  datatype SlashOracle = SlashOracle(operator: Option<Addr>, totalSlashAmount: int)

  /** The event that is captured, if the validator is known and can be a key. */
  function Captured(oracle: SlashOracle, power: i64, height: i64, slashRatio: Bytes): Option<Event> {
    if oracle.operator.Some? && |oracle.operator.value| <= 255
    then Some(SlashEvent(oracle.operator.value, power, height, oracle.totalSlashAmount, slashRatio)) else None
  }

  /** The records when an event may have been piped. */
  ghost function RecordsWith(was: Records, height: Height, event: Option<Event>): Records {
    if event.Some? then was.(tasks := Notified(was.tasks, Enabled(was.caps), height)) else was
  }

  function PipeWith(mem: Kv, event: Option<Event>): Kv {
    if event.Some? then mem[EventKey(event.value) := []] else mem
  }

  /** Capture a slash and pass it on. */
  method Slash<S>(ctx: Context<S>, oracle: SlashOracle, power: i64, height: i64, slashRatio: Bytes)
    returns (r: Result<int>)
    requires Sound(ctx.store)
    modifies ctx`store, ctx`mem
    ensures Sound(ctx.store)
    ensures r == if oracle.operator.Some? && |oracle.operator.value| > 255 then Err(Panicked)
                 else Ok(oracle.totalSlashAmount)
    ensures ctx.mem == PipeWith(old(ctx.mem), Captured(oracle, power, height, slashRatio))
    ensures RecordsOf(ctx.store) ==
            RecordsWith(old(RecordsOf(ctx.store)), ctx.height, Captured(oracle, power, height, slashRatio))
    ensures oracle.operator.Some? && |oracle.operator.value| <= 255 ==>
              var info := SlashInfo(infractionHeight := height, power := power,
                                    totalSlashAmount := Decimal.Text(oracle.totalSlashAmount),
                                    slashFraction := slashRatio);
              && ctx.mem == old(ctx.mem)[PipedKey(OP_SLASHED, oracle.operator.value, Some(info)) := []]
              && Notifies(old(Tasks(ctx.store)), Tasks(ctx.store), old(Caps(ctx.store)), ctx.height)
    ensures oracle.operator.None? || |oracle.operator.value| > 255 ==>
              ctx.mem == old(ctx.mem) && RecordsOf(ctx.store) == old(RecordsOf(ctx.store))
  {
    NotifiedNotifies(Tasks(ctx.store), Caps(ctx.store), ctx.height);
    var total := oracle.totalSlashAmount;
    if oracle.operator.Some? {
      var scheduled := ScheduleSlashed(ctx, oracle.operator.value, power, height, total, slashRatio);
      if scheduled.Err? { return Err(scheduled.error); }
    }
    r := Ok(total);
  }

  /** The variant for interchain security names its parameters the other way
      round and passes them on in its own order. */
  method SlashWithInfractionReason<S>(
    ctx: Context<S>, oracle: SlashOracle, infractionHeight: i64, power: i64, slashFactor: Bytes)
    returns (r: Result<int>)
    requires Sound(ctx.store)
    modifies ctx`store, ctx`mem
    ensures Sound(ctx.store)
    ensures r == if oracle.operator.Some? && |oracle.operator.value| > 255 then Err(Panicked)
                 else Ok(oracle.totalSlashAmount)
    ensures var event := if Captured(oracle, 0, 0, slashFactor).None? then None
                         else Some(InfractionEvent(oracle.operator.value, infractionHeight, power,
                                                   oracle.totalSlashAmount, slashFactor));
            && ctx.mem == PipeWith(old(ctx.mem), event)
            && RecordsOf(ctx.store) == RecordsWith(old(RecordsOf(ctx.store)), ctx.height, event)
    ensures oracle.operator.Some? && |oracle.operator.value| <= 255 ==>
              var info := SlashInfo(infractionHeight := power, power := infractionHeight,
                                    totalSlashAmount := Decimal.Text(oracle.totalSlashAmount),
                                    slashFraction := slashFactor);
              && ctx.mem == old(ctx.mem)[PipedKey(OP_SLASHED, oracle.operator.value, Some(info)) := []]
              && Notifies(old(Tasks(ctx.store)), Tasks(ctx.store), old(Caps(ctx.store)), ctx.height)
  {
    r := Slash(ctx, oracle, infractionHeight, power, slashFactor);
  }

  /** The event a call of `SlashWithInfractionReason` pipes. */
  function InfractionEvent(val: Addr, infractionHeight: i64, power: i64, total: int, slashFactor: Bytes): Event {
    SlashEvent(val, infractionHeight, power, total, slashFactor)
  }

  /** End to end, the report names the infraction height and the power that the
      caller meant, for every pair of signed numbers: the parameter order of the
      decorator, the field order of the writer and the field order of the reader
      compose to the identity. */
  lemma SlashFieldsEndToEnd(
    view: StakingView, now: Height, time: i64, mem: Kv, events: set<Event>,
    val: Addr, infractionHeight: i64, power: i64, total: nat, slashFactor: Bytes)
    requires InfractionEvent(val, infractionHeight, power, total, slashFactor) in events
    requires Holds(mem, events) && ValidatorsKnown(view, events)
    ensures var r := Report(view, now, time, mem);
            r.Ok? && ValidatorSlash(val, now, time, infractionHeight, 0, power, Decimal.Text(total), slashFactor)
                     in r.value.slashed
  {
    var e := InfractionEvent(val, infractionHeight, power, total, slashFactor);
    ReportContents(view, now, time, mem, events);
    assert ReportedSlash(e, now, time) ==
           ValidatorSlash(val, now, time, infractionHeight, 0, power, Decimal.Text(total), slashFactor);
  }

  /** Every amount the SDK can express fits the key for addresses of up to 158
      bytes, so in particular for the 20- and 32-byte addresses in use. */
  lemma SlashEventsFit(val: Addr, power: i64, height: i64, total: nat, slashRatio: Bytes)
    requires total < Decimal.TWO_256 && |val| <= 158
    ensures Deliverable(SlashEvent(val, power, height, total, slashRatio))
  {
    Decimal.AmountLength(total);
  }
}
