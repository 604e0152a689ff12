/** Validator-set events, the pipe they wait in, and the report made of them. */
module Valset {
  import opened Bytes
  import opened Types
  import opened Order
  import opened Keys
  import opened SlashCodec
  import Dec
  import Decimal

  // ----------------------------------------------------------------- events

  datatype Event = Event(op: byte, val: Addr, info: Option<SlashInfo>)

  function EventKey(e: Event): Bytes {
    PipedKey(e.op, e.val, e.info)
  }

  /** Events the key writer accepts. */
  predicate Writable(e: Event) {
    e.op != OP_UNDEFINED && (e.op == OP_SLASHED ==> e.info.Some?) && |e.val| <= 255
  }

  /** Events that the module's own calls produce and the reader understands. */
  predicate Deliverable(e: Event) {
    && Writable(e)
    && e.op <= OP_SLASHED
    && (e.info.Some? ==> e.op == OP_SLASHED)
    && Fits(e.op, e.val, e.info)
  }

  /** These are the events with a code from 1 to 7, slash data for code 7 alone,
      and an address that leaves room for the eight-bit indices of the reader. */
  lemma DeliverableIff(e: Event)
    ensures Deliverable(e) <==>
            && 1 <= e.op <= 7
            && (e.info.Some? <==> e.op == 7)
            && |e.val| <= 254
            && (e.op == 7 ==>
                  && |e.val| + 19 + |e.info.value.totalSlashAmount| <= 255
                  && (e.info.value.totalSlashAmount != [] || e.info.value.slashFraction != []))
  {
  }

  /** What is read back for an event. */
  function Read(e: Event): Piped {
    Expected(e.op, e.val, e.info)
  }

  lemma DeliverableRoundTrip(e: Event)
    requires Deliverable(e)
    ensures ReadPiped(EventKey(e)[1..]) == Ok(Read(e))
    ensures PIPED_VALSET_PREFIX <= EventKey(e)
  {
    assert EventKey(e)[1..] == PipedBody(e.op, e.val, e.info);
    PipedRoundTrip(e.op, e.val, e.info);
  }

  /** Different events are read back differently, so they have different keys. */
  lemma DeliverableInjective(a: Event, b: Event)
    requires Deliverable(a) && Deliverable(b)
    ensures Read(a) == Read(b) <==> a == b
    ensures EventKey(a) == EventKey(b) <==> a == b
  {
    DeliverableRoundTrip(a);
    DeliverableRoundTrip(b);
  }

  // ----------------------------------------------------------------- report

  datatype Validator = Validator(
    operator: Addr,
    rate: Bytes,
    maxRate: Bytes,
    maxChangeRate: Bytes,
    delegatorShares: Dec.Raw)

  /** What the module asks the staking module. */
  datatype StakingView = StakingView(
    validator: Addr -> Option<Validator>,
    delegation: (Addr, Addr) -> Option<Dec.Raw>)

  datatype WasmValidator = WasmValidator(
    address: Addr,
    commission: Bytes,
    maxCommission: Bytes,
    maxChangeRate: Bytes)

  function ConvertSdkValidatorToWasm(v: Validator): WasmValidator {
    WasmValidator(v.operator, v.rate, v.maxRate, v.maxChangeRate)
  }

  datatype ValidatorSlash = ValidatorSlash(
    validatorAddr: Addr,
    height: i64,
    time: i64,
    infractionHeight: i64,
    infractionTime: i64,
    power: i64,
    slashAmount: Bytes,
    slashRatio: Bytes)

  datatype ValsetUpdate = ValsetUpdate(
    additions: seq<WasmValidator>,
    removals: seq<Addr>,
    updated: seq<WasmValidator>,
    jailed: seq<Addr>,
    unjailed: seq<Addr>,
    tombstoned: seq<Addr>,
    slashed: seq<ValidatorSlash>)

  const EMPTY_REPORT := ValsetUpdate([], [], [], [], [], [], [])

  function SlashEntry(val: Addr, i: SlashInfo, height: Height, time: i64): ValidatorSlash {
    ValidatorSlash(val, height, time, i.infractionHeight, 0, i.power, i.totalSlashAmount, i.slashFraction)
  }

  /** One event more. */
  function AddPiped(view: StakingView, height: Height, time: i64, r: ValsetUpdate, p: Piped): Result<ValsetUpdate> {
    if p.op == OP_BONDED then
      var v := view.validator(p.val);
      if v.None? then Err(Unknown) else Ok(r.(additions := r.additions + [ConvertSdkValidatorToWasm(v.value)]))
    else if p.op == OP_UNBONDED then Ok(r.(removals := r.removals + [p.val]))
    else if p.op == OP_JAILED then Ok(r.(jailed := r.jailed + [p.val]))
    else if p.op == OP_TOMBSTONED then Ok(r.(tombstoned := r.tombstoned + [p.val]))
    else if p.op == OP_UNJAILED then Ok(r.(unjailed := r.unjailed + [p.val]))
    else if p.op == OP_MODIFIED then
      var v := view.validator(p.val);
      if v.None? then Err(Unknown) else Ok(r.(updated := r.updated + [ConvertSdkValidatorToWasm(v.value)]))
    else if p.op == OP_SLASHED && p.slashInfo.Some? then
      Ok(r.(slashed := r.slashed + [SlashEntry(p.val, p.slashInfo.value, height, time)]))
    else Err(Invalid)
  }

  function AddKey(
    view: StakingView, height: Height, time: i64, acc: Result<ValsetUpdate>, key: Bytes): Result<ValsetUpdate>
  {
    if acc.Err? || key == [] then acc
    else
      match ReadPiped(key[1..])
      case Err(e) => Err(e)
      case Ok(p) => AddPiped(view, height, time, acc.value, p)
  }

  /** The report over a list of keys; the first error ends it. */
  function Fold(view: StakingView, height: Height, time: i64, keys: seq<Bytes>): Result<ValsetUpdate> {
    if keys == [] then Ok(EMPTY_REPORT)
    else AddKey(view, height, time, Fold(view, height, time, keys[..|keys| - 1]), keys[|keys| - 1])
  }

  /** The keys waiting in the pipe. */
  function PipeKeys(mem: Kv): set<Bytes> {
    Ahead(mem, PIPED_VALSET_PREFIX, None)
  }

  /** The report over everything in the pipe, in key order. */
  function Report(view: StakingView, height: Height, time: i64, mem: Kv): Result<ValsetUpdate> {
    Fold(view, height, time, Sorted(PipeKeys(mem)))
  }

  lemma {:induction false} FoldErrorSticks(view: StakingView, height: Height, time: i64, keys: seq<Bytes>, i: nat)
    requires i <= |keys| && Fold(view, height, time, keys[..i]).Err?
    ensures Fold(view, height, time, keys) == Fold(view, height, time, keys[..i])
    decreases |keys|
  {
    if i < |keys| {
      var init := keys[..|keys| - 1];
      assert init[..i] == keys[..i];
      FoldErrorSticks(view, height, time, init, i);
    } else {
      assert keys[..i] == keys;
    }
  }

  // ------------------------------------------------ contents of the report

  /** The addresses of the events with one operation code. */
  function Addrs(ps: seq<Piped>, op: byte): seq<Addr> {
    if ps == [] then []
    else
      var last := ps[|ps| - 1];
      Addrs(ps[..|ps| - 1], op) + if last.op == op then [last.val] else []
  }

  function Converted(view: StakingView, vals: seq<Addr>): seq<WasmValidator> {
    if vals == [] then []
    else
      var v := view.validator(vals[|vals| - 1]);
      Converted(view, vals[..|vals| - 1]) + if v.Some? then [ConvertSdkValidatorToWasm(v.value)] else []
  }

  function SlashEntries(ps: seq<Piped>, height: Height, time: i64): seq<ValidatorSlash> {
    if ps == [] then []
    else
      var last := ps[|ps| - 1];
      SlashEntries(ps[..|ps| - 1], height, time)
      + if last.op == OP_SLASHED && last.slashInfo.Some?
        then [SlashEntry(last.val, last.slashInfo.value, height, time)] else []
  }

  /** An event whose validator has to be looked up. */
  predicate NeedsValidator(op: byte) {
    op == OP_BONDED || op == OP_MODIFIED
  }

  predicate Reportable(view: StakingView, p: Piped) {
    && 1 <= p.op <= OP_SLASHED
    && (p.op == OP_SLASHED ==> p.slashInfo.Some?)
    && (NeedsValidator(p.op) ==> view.validator(p.val).Some?)
  }

  function Listed(view: StakingView, height: Height, time: i64, ps: seq<Piped>): ValsetUpdate {
    ValsetUpdate(
      Converted(view, Addrs(ps, OP_BONDED)),
      Addrs(ps, OP_UNBONDED),
      Converted(view, Addrs(ps, OP_MODIFIED)),
      Addrs(ps, OP_JAILED),
      Addrs(ps, OP_UNJAILED),
      Addrs(ps, OP_TOMBSTONED),
      SlashEntries(ps, height, time))
  }

  lemma ConvertedStep(view: StakingView, vals: seq<Addr>, v: Addr)
    requires view.validator(v).Some?
    ensures Converted(view, vals + [v]) == Converted(view, vals) + [ConvertSdkValidatorToWasm(view.validator(v).value)]
  {
    assert (vals + [v])[..|vals|] == vals;
  }

  lemma AddrsStep(ps: seq<Piped>, p: Piped, op: byte)
    ensures Addrs(ps + [p], op) == if p.op == op then Addrs(ps, op) + [p.val] else Addrs(ps, op)
  {
    assert (ps + [p])[..|ps|] == ps;
  }

  lemma SlashEntriesStep(ps: seq<Piped>, p: Piped, height: Height, time: i64)
    requires p.op == OP_SLASHED ==> p.slashInfo.Some?
    ensures SlashEntries(ps + [p], height, time) ==
            if p.op == OP_SLASHED
            then SlashEntries(ps, height, time) + [SlashEntry(p.val, p.slashInfo.value, height, time)]
            else SlashEntries(ps, height, time)
  {
    assert (ps + [p])[..|ps|] == ps;
  }

  lemma ListedStep(view: StakingView, height: Height, time: i64, ps: seq<Piped>, p: Piped)
    requires Reportable(view, p)
    ensures AddPiped(view, height, time, Listed(view, height, time, ps), p) == Ok(Listed(view, height, time, ps + [p]))
  {
    forall op: byte ensures Addrs(ps + [p], op) == if p.op == op then Addrs(ps, op) + [p.val] else Addrs(ps, op) {
      AddrsStep(ps, p, op);
    }
    SlashEntriesStep(ps, p, height, time);
    if NeedsValidator(p.op) {
      ConvertedStep(view, Addrs(ps, p.op), p.val);
    }
  }

  lemma NotReportable(view: StakingView, height: Height, time: i64, r: ValsetUpdate, p: Piped)
    requires !Reportable(view, p)
    ensures AddPiped(view, height, time, r, p).Err?
  {
  }

  /** The keys are read back as these events. */
  ghost predicate ReadsAs(keys: seq<Bytes>, ps: seq<Piped>) {
    |keys| == |ps| && forall i | 0 <= i < |keys| :: keys[i] != [] && ReadPiped(keys[i][1..]) == Ok(ps[i])
  }

  lemma AddKeyStep(view: StakingView, height: Height, time: i64, ps: seq<Piped>, key: Bytes, p: Piped)
    requires key != [] && ReadPiped(key[1..]) == Ok(p) && Reportable(view, p)
    ensures AddKey(view, height, time, Ok(Listed(view, height, time, ps)), key) ==
            Ok(Listed(view, height, time, ps + [p]))
  {
    ListedStep(view, height, time, ps, p);
  }

  lemma {:induction false} FoldSucceeds(view: StakingView, height: Height, time: i64, keys: seq<Bytes>, ps: seq<Piped>)
    requires ReadsAs(keys, ps)
    requires forall i | 0 <= i < |ps| :: Reportable(view, ps[i])
    ensures Fold(view, height, time, keys) == Ok(Listed(view, height, time, ps))
  {
    if keys != [] {
      var n := |keys| - 1;
      var init, last := ps[..n], ps[n];
      assert ps == init + [last];
      FoldSucceeds(view, height, time, keys[..n], init);
      AddKeyStep(view, height, time, init, keys[n], last);
    }
  }

  lemma FoldFails(view: StakingView, height: Height, time: i64, keys: seq<Bytes>, ps: seq<Piped>, i: nat)
    requires ReadsAs(keys, ps) && i < |ps| && !Reportable(view, ps[i])
    ensures Fold(view, height, time, keys).Err?
  {
    var acc := Fold(view, height, time, keys[..i]);
    assert keys[..i + 1][..i] == keys[..i] && keys[..i + 1][i] == keys[i];
    if acc.Ok? {
      NotReportable(view, height, time, acc.value, ps[i]);
    }
    FoldErrorSticks(view, height, time, keys, i + 1);
  }

  /** The report succeeds exactly when every event can be reported, and then
      each event is in the list of its category, in key order. */
  lemma FoldLists(view: StakingView, height: Height, time: i64, keys: seq<Bytes>, ps: seq<Piped>)
    requires ReadsAs(keys, ps)
    ensures Fold(view, height, time, keys).Ok? <==> forall i | 0 <= i < |ps| :: Reportable(view, ps[i])
    ensures Fold(view, height, time, keys).Ok? ==>
              Fold(view, height, time, keys).value == Listed(view, height, time, ps)
  {
    if i: int :| 0 <= i < |ps| && !Reportable(view, ps[i]) {
      FoldFails(view, height, time, keys, ps, i);
    } else {
      FoldSucceeds(view, height, time, keys, ps);
    }
  }

  lemma {:induction false} InAddrs(ps: seq<Piped>, op: byte, v: Addr)
    ensures v in Addrs(ps, op) <==> exists i :: 0 <= i < |ps| && ps[i].op == op && ps[i].val == v
  {
    if ps != [] {
      var n := |ps| - 1;
      InAddrs(ps[..n], op, v);
      assert ps == ps[..n] + [ps[n]];
    }
  }

  lemma {:induction false} InSlashEntries(ps: seq<Piped>, height: Height, time: i64, z: ValidatorSlash)
    ensures z in SlashEntries(ps, height, time) <==>
      exists i :: 0 <= i < |ps| && ps[i].op == OP_SLASHED && ps[i].slashInfo.Some?
                  && z == SlashEntry(ps[i].val, ps[i].slashInfo.value, height, time)
  {
    if ps != [] {
      var n := |ps| - 1;
      InSlashEntries(ps[..n], height, time, z);
      assert ps == ps[..n] + [ps[n]];
    }
  }

  lemma {:induction false} InConverted(view: StakingView, vals: seq<Addr>, w: WasmValidator)
    ensures w in Converted(view, vals) <==>
      exists i :: 0 <= i < |vals| && view.validator(vals[i]).Some?
                  && w == ConvertSdkValidatorToWasm(view.validator(vals[i]).value)
  {
    if vals != [] {
      var n := |vals| - 1;
      InConverted(view, vals[..n], w);
      assert vals == vals[..n] + [vals[n]];
    }
  }

  // --------------------------------------------- the pipe as a set of events

  /** The pipe holds exactly these events. */
  ghost predicate Holds(mem: Kv, events: set<Event>) {
    && (forall e | e in events :: Deliverable(e))
    && PipeKeys(mem) == KeysOfEvents(events)
  }

  function KeysOfEvents(events: set<Event>): set<Bytes> {
    set e | e in events :: EventKey(e)
  }

  /** Piping an event adds it; piping it again changes nothing. */
  lemma PipeOne(mem: Kv, events: set<Event>, e: Event)
    requires Holds(mem, events) && Deliverable(e)
    ensures Holds(mem[EventKey(e) := []], events + {e})
  {
    DeliverableRoundTrip(e);
    assert PipeKeys(mem[EventKey(e) := []]) == PipeKeys(mem) + {EventKey(e)};
    assert KeysOfEvents(events + {e}) == KeysOfEvents(events) + {EventKey(e)};
  }

  /** `es` lists the events of the pipe in key order. */
  ghost predicate InKeyOrder(es: seq<Event>, keys: seq<Bytes>, events: set<Event>) {
    && |es| == |keys|
    && (forall i | 0 <= i < |es| :: EventKey(es[i]) == keys[i])
    && (forall e :: e in es <==> e in events)
  }

  ghost function EventOf(k: Bytes, events: set<Event>): (e: Event)
    requires k in KeysOfEvents(events)
    ensures e in events && EventKey(e) == k
  {
    var e :| e in events && EventKey(e) == k;
    e
  }

  lemma EventListed(keys: seq<Bytes>, es: seq<Event>, e: Event)
    requires |es| == |keys| && forall i | 0 <= i < |es| :: EventKey(es[i]) == keys[i] && Deliverable(es[i])
    requires EventKey(e) in keys && Deliverable(e)
    ensures e in es
  {
    var i :| 0 <= i < |keys| && keys[i] == EventKey(e);
    DeliverableInjective(es[i], e);
  }

  lemma PipeOrder(mem: Kv, events: set<Event>) returns (es: seq<Event>)
    requires Holds(mem, events)
    ensures InKeyOrder(es, Sorted(PipeKeys(mem)), events)
  {
    var keys := Sorted(PipeKeys(mem));
    es := seq(|keys|, i requires 0 <= i < |keys| => EventOf(keys[i], events));
    forall e | e in events ensures e in es {
      assert EventKey(e) in KeysOfEvents(events);
      EventListed(keys, es, e);
    }
  }

  function ReadAll(es: seq<Event>): (ps: seq<Piped>)
    ensures |ps| == |es| && forall i | 0 <= i < |es| :: ps[i] == Read(es[i])
  {
    seq(|es|, i requires 0 <= i < |es| => Read(es[i]))
  }

  lemma KeysReadAs(es: seq<Event>, keys: seq<Bytes>)
    requires |es| == |keys| && forall i | 0 <= i < |es| :: EventKey(es[i]) == keys[i] && Deliverable(es[i])
    ensures ReadsAs(keys, ReadAll(es))
  {
    forall i | 0 <= i < |keys| ensures keys[i] != [] && ReadPiped(keys[i][1..]) == Ok(Read(es[i])) {
      DeliverableRoundTrip(es[i]);
    }
  }

  // ------------------------------------------------- the lists of the report

  ghost predicate PipedFor(events: set<Event>, op: byte, v: Addr) {
    exists e :: e in events && e.op == op && e.val == v
  }

  /** The list has exactly the validators with an event of the kind. */
  ghost predicate ListsVals(vals: seq<Addr>, events: set<Event>, op: byte) {
    forall v :: v in vals <==> PipedFor(events, op, v)
  }

  /** The list has exactly the data of the validators with an event of the kind. */
  ghost predicate ListsData(view: StakingView, data: seq<WasmValidator>, events: set<Event>, op: byte) {
    forall w :: w in data <==> exists v :: PipedFor(events, op, v) && Some(w) == Looked(view, v)
  }

  /** The entry the slash event `e` is reported with: the numbers exchanged. */
  function ReportedSlash(e: Event, height: Height, time: i64): ValidatorSlash
    requires e.info.Some?
  {
    SlashEntry(e.val, Swapped(e.info.value), height, time)
  }

  ghost predicate ListsSlashes(slashes: seq<ValidatorSlash>, events: set<Event>, height: Height, time: i64) {
    forall z :: z in slashes <==>
      exists e :: e in events && e.op == OP_SLASHED && e.info.Some? && z == ReportedSlash(e, height, time)
  }

  ghost predicate ReportsExactly(view: StakingView, r: ValsetUpdate, events: set<Event>, height: Height, time: i64) {
    && ListsData(view, r.additions, events, OP_BONDED)
    && ListsVals(r.removals, events, OP_UNBONDED)
    && ListsData(view, r.updated, events, OP_MODIFIED)
    && ListsVals(r.jailed, events, OP_JAILED)
    && ListsVals(r.unjailed, events, OP_UNJAILED)
    && ListsVals(r.tombstoned, events, OP_TOMBSTONED)
    && ListsSlashes(r.slashed, events, height, time)
  }

  ghost predicate ValidatorsKnown(view: StakingView, events: set<Event>) {
    forall e | e in events && NeedsValidator(e.op) :: view.validator(e.val).Some?
  }

  function Looked(view: StakingView, v: Addr): Option<WasmValidator> {
    var x := view.validator(v);
    if x.None? then None else Some(ConvertSdkValidatorToWasm(x.value))
  }

  lemma AddrsOfEvents(es: seq<Event>, events: set<Event>, op: byte)
    requires forall e :: e in es <==> e in events
    ensures ListsVals(Addrs(ReadAll(es), op), events, op)
  {
    var ps := ReadAll(es);
    forall v ensures v in Addrs(ps, op) <==> PipedFor(events, op, v) {
      InAddrs(ps, op, v);
      if i: int :| 0 <= i < |ps| && ps[i].op == op && ps[i].val == v {
        assert es[i] in es;
      }
      if e :| e in events && e.op == op && e.val == v {
        var i :| 0 <= i < |es| && es[i] == e;
        assert ps[i] == Read(e);
      }
    }
  }

  lemma ConvertedOfEvents(view: StakingView, vals: seq<Addr>, events: set<Event>, op: byte)
    requires ListsVals(vals, events, op)
    ensures ListsData(view, Converted(view, vals), events, op)
  {
    forall w ensures w in Converted(view, vals) <==> exists v :: PipedFor(events, op, v) && Some(w) == Looked(view, v) {
      InConverted(view, vals, w);
      if i: int :| 0 <= i < |vals| && view.validator(vals[i]).Some?
                   && w == ConvertSdkValidatorToWasm(view.validator(vals[i]).value)
      {
        assert vals[i] in vals;
        assert Some(w) == Looked(view, vals[i]);
      }
      if v :| PipedFor(events, op, v) && Some(w) == Looked(view, v) {
        assert v in vals;
        var i :| 0 <= i < |vals| && vals[i] == v;
      }
    }
  }

  lemma SlashEntriesOfEvents(es: seq<Event>, events: set<Event>, height: Height, time: i64)
    requires forall e :: e in es <==> e in events
    ensures ListsSlashes(SlashEntries(ReadAll(es), height, time), events, height, time)
  {
    var ps := ReadAll(es);
    forall z ensures z in SlashEntries(ps, height, time) <==>
      exists e :: e in events && e.op == OP_SLASHED && e.info.Some? && z == ReportedSlash(e, height, time)
    {
      InSlashEntries(ps, height, time, z);
      if i: int :| 0 <= i < |ps| && ps[i].op == OP_SLASHED && ps[i].slashInfo.Some?
                   && z == SlashEntry(ps[i].val, ps[i].slashInfo.value, height, time)
      {
        assert es[i] in es;
        assert z == ReportedSlash(es[i], height, time);
      }
      if e :| e in events && e.op == OP_SLASHED && e.info.Some? && z == ReportedSlash(e, height, time) {
        var i :| 0 <= i < |es| && es[i] == e;
        assert ps[i] == Read(e);
      }
    }
  }

  lemma ReportableEvents(view: StakingView, es: seq<Event>, events: set<Event>)
    requires forall e | e in events :: Deliverable(e)
    requires forall e :: e in es <==> e in events
    ensures (forall i | 0 <= i < |es| :: Reportable(view, ReadAll(es)[i])) <==> ValidatorsKnown(view, events)
  {
    if ValidatorsKnown(view, events) {
      forall i | 0 <= i < |es| ensures Reportable(view, ReadAll(es)[i]) {
        assert es[i] in events;
      }
    }
    if forall i | 0 <= i < |es| :: Reportable(view, ReadAll(es)[i]) {
      forall e | e in events && NeedsValidator(e.op) ensures view.validator(e.val).Some? {
        var i :| 0 <= i < |es| && es[i] == e;
        assert Reportable(view, ReadAll(es)[i]);
      }
    }
  }

  /** The report is made exactly when every bonded or modified validator of the
      pipe is known. Each list then has exactly the events of its category; for
      a slash the two numbers are handed over exchanged. */
  lemma ReportContents(view: StakingView, height: Height, time: i64, mem: Kv, events: set<Event>)
    requires Holds(mem, events)
    ensures var r := Report(view, height, time, mem);
            && (r.Ok? <==> ValidatorsKnown(view, events))
            && (r.Ok? ==> ReportsExactly(view, r.value, events, height, time))
  {
    var es := PipeOrder(mem, events);
    var ps := ReadAll(es);
    KeysReadAs(es, Sorted(PipeKeys(mem)));
    FoldLists(view, height, time, Sorted(PipeKeys(mem)), ps);
    ReportableEvents(view, es, events);
    AddrsOfEvents(es, events, OP_UNBONDED);
    AddrsOfEvents(es, events, OP_JAILED);
    AddrsOfEvents(es, events, OP_UNJAILED);
    AddrsOfEvents(es, events, OP_TOMBSTONED);
    AddrsOfEvents(es, events, OP_BONDED);
    AddrsOfEvents(es, events, OP_MODIFIED);
    ConvertedOfEvents(view, Addrs(ps, OP_BONDED), events, OP_BONDED);
    ConvertedOfEvents(view, Addrs(ps, OP_MODIFIED), events, OP_MODIFIED);
    SlashEntriesOfEvents(es, events, height, time);
  }

  /** An operation that can be reported unless its validator is unknown. */
  predicate Sane(p: Piped) {
    1 <= p.op <= OP_SLASHED && (p.op == OP_SLASHED ==> p.slashInfo.Some?)
  }

  lemma AddKeyErrorIsUnknown(
    view: StakingView, height: Height, time: i64, acc: Result<ValsetUpdate>, key: Bytes, p: Piped)
    requires key != [] && ReadPiped(key[1..]) == Ok(p) && Sane(p)
    requires acc.Err? ==> acc.error == Unknown
    ensures var r := AddKey(view, height, time, acc, key); r.Err? ==> r.error == Unknown
  {
  }

  lemma {:induction false} FoldErrorIsUnknown(
    view: StakingView, height: Height, time: i64, keys: seq<Bytes>, ps: seq<Piped>)
    requires ReadsAs(keys, ps)
    requires forall i | 0 <= i < |ps| :: Sane(ps[i])
    ensures var r := Fold(view, height, time, keys); r.Err? ==> r.error == Unknown
  {
    if keys != [] {
      var n := |keys| - 1;
      FoldErrorIsUnknown(view, height, time, keys[..n], ps[..n]);
      AddKeyErrorIsUnknown(view, height, time, Fold(view, height, time, keys[..n]), keys[n], ps[n]);
    }
  }

  /** A report that is not made fails with the error for unknown validators. */
  lemma ReportError(view: StakingView, height: Height, time: i64, mem: Kv, events: set<Event>)
    requires Holds(mem, events) && Report(view, height, time, mem).Err?
    ensures Report(view, height, time, mem) == Err(Unknown)
  {
    var es := PipeOrder(mem, events);
    forall i | 0 <= i < |es| ensures Deliverable(es[i]) { assert es[i] in events; }
    KeysReadAs(es, Sorted(PipeKeys(mem)));
    FoldErrorIsUnknown(view, height, time, Sorted(PipeKeys(mem)), ReadAll(es));
  }

  // ------------------------------------------------ order and duplicates

  /** Order of the validators within one list of the report. */
  predicate ValBefore(a: Addr, b: Addr) {
    Lt([U8(|a|)] + a, [U8(|b|)] + b)
  }

  lemma PlainKeyOrder(a: Event, b: Event)
    requires Deliverable(a) && Deliverable(b) && a.op == b.op != OP_SLASHED
    ensures Lt(EventKey(a), EventKey(b)) ==> ValBefore(a.val, b.val)
  {
    var x, y := [U8(|a.val|)] + a.val, [U8(|b.val|)] + b.val;
    assert EventKey(a) == PIPED_VALSET_PREFIX + (x + [a.op]) && EventKey(b) == PIPED_VALSET_PREFIX + (y + [b.op]);
    LtPrefix(PIPED_VALSET_PREFIX, x + [a.op], y + [b.op]);
    if |a.val| == |b.val| {
      LtConcat(x, [a.op], y, [b.op]);
      LtIrreflexive([a.op]);
    } else {
      assert (x + [a.op])[0] == U8(|a.val|) && (y + [b.op])[0] == U8(|b.val|);
    }
  }

  ghost predicate InValOrder(vals: seq<Addr>) {
    forall i, j | 0 <= i < j < |vals| :: ValBefore(vals[i], vals[j]) && vals[i] != vals[j]
  }

  lemma {:induction false} AddrsOrdered(ps: seq<Piped>, op: byte)
    requires forall i, j | 0 <= i < j < |ps| && ps[i].op == op == ps[j].op ::
               ValBefore(ps[i].val, ps[j].val) && ps[i].val != ps[j].val
    ensures InValOrder(Addrs(ps, op))
  {
    if ps != [] {
      var n := |ps| - 1;
      var init := Addrs(ps[..n], op);
      AddrsOrdered(ps[..n], op);
      if ps[n].op == op {
        forall i | 0 <= i < |init| ensures ValBefore(init[i], ps[n].val) && init[i] != ps[n].val {
          InAddrs(ps[..n], op, init[i]);
          assert init[i] in init;
          var j :| 0 <= j < n && ps[..n][j].op == op && ps[..n][j].val == init[i];
          assert ps[j].op == op;
        }
      }
    }
  }

  lemma {:induction false} SlashEntriesDistinct(ps: seq<Piped>, height: Height, time: i64)
    requires forall i, j | 0 <= i < j < |ps| :: ps[i] != ps[j]
    ensures Distinct(SlashEntries(ps, height, time))
  {
    if ps != [] {
      var n := |ps| - 1;
      var init := SlashEntries(ps[..n], height, time);
      SlashEntriesDistinct(ps[..n], height, time);
      if ps[n].op == OP_SLASHED && ps[n].slashInfo.Some? {
        var entry := SlashEntry(ps[n].val, ps[n].slashInfo.value, height, time);
        forall i | 0 <= i < |init| ensures init[i] != entry {
          InSlashEntries(ps[..n], height, time, init[i]);
          assert init[i] in init;
        }
      }
    }
  }

  ghost predicate Distinct(slashes: seq<ValidatorSlash>) {
    forall i, j | 0 <= i < j < |slashes| :: slashes[i] != slashes[j]
  }

  /** `slashes` are the reports of the events `es`, in the order of their keys. */
  ghost predicate SlashesOf(slashes: seq<ValidatorSlash>, es: seq<Event>, height: Height, time: i64) {
    && |es| == |slashes|
    && (forall i | 0 <= i < |es| :: es[i].info.Some? && slashes[i] == ReportedSlash(es[i], height, time))
    && (forall i, j | 0 <= i < j < |es| :: Lt(EventKey(es[i]), EventKey(es[j])))
  }

  ghost predicate SlashesInKeyOrder(slashes: seq<ValidatorSlash>, events: set<Event>, height: Height, time: i64) {
    exists es :: SlashesOf(slashes, es, height, time) && forall e | e in es :: e in events
  }

  lemma SlashEntriesMore(es: seq<Event>, height: Height, time: i64)
    requires es != [] && (es[|es| - 1].op == OP_SLASHED ==> es[|es| - 1].info.Some?)
    ensures var last := es[|es| - 1];
            SlashEntries(ReadAll(es), height, time) ==
              SlashEntries(ReadAll(es[..|es| - 1]), height, time)
              + if last.op == OP_SLASHED then [ReportedSlash(last, height, time)] else []
  {
    assert ReadAll(es)[..|es| - 1] == ReadAll(es[..|es| - 1]);
  }

  /** Where in a list of events the slashes of its report are. */
  lemma {:induction false} SlashesAt(es: seq<Event>, height: Height, time: i64) returns (at: seq<nat>)
    requires forall i | 0 <= i < |es| :: es[i].op == OP_SLASHED ==> es[i].info.Some?
    ensures |at| == |SlashEntries(ReadAll(es), height, time)|
    ensures forall i | 0 <= i < |at| ::
              && at[i] < |es| && es[at[i]].info.Some?
              && SlashEntries(ReadAll(es), height, time)[i] == ReportedSlash(es[at[i]], height, time)
    ensures forall i, j | 0 <= i < j < |at| :: at[i] < at[j]
  {
    at := [];
    if es != [] {
      var n := |es| - 1;
      at := SlashesAt(es[..n], height, time);
      SlashEntriesMore(es, height, time);
      if es[n].op == OP_SLASHED {
        at := at + [n];
      }
    }
  }

  lemma PickedInOrder(es: seq<Event>, keys: seq<Bytes>, at: seq<nat>, picked: seq<Event>)
    requires |es| == |keys| && forall i | 0 <= i < |es| :: EventKey(es[i]) == keys[i]
    requires StrictlySorted(keys)
    requires |picked| == |at| && forall i | 0 <= i < |at| :: at[i] < |es| && picked[i] == es[at[i]]
    requires forall i, j | 0 <= i < j < |at| :: at[i] < at[j]
    ensures forall i, j | 0 <= i < j < |picked| :: Lt(EventKey(picked[i]), EventKey(picked[j]))
  {
    forall i, j | 0 <= i < j < |picked| ensures Lt(EventKey(picked[i]), EventKey(picked[j])) {
      assert EventKey(picked[i]) == keys[at[i]] && EventKey(picked[j]) == keys[at[j]];
    }
  }

  /** Picking the slashes keeps the order of the events. */
  lemma SlashesOrdered(es: seq<Event>, keys: seq<Bytes>, events: set<Event>, height: Height, time: i64)
    requires InKeyOrder(es, keys, events)
    requires forall e | e in events :: Deliverable(e)
    requires StrictlySorted(keys)
    ensures SlashesInKeyOrder(SlashEntries(ReadAll(es), height, time), events, height, time)
  {
    forall i | 0 <= i < |es| ensures es[i].op == OP_SLASHED ==> es[i].info.Some? { assert es[i] in events; }
    var at := SlashesAt(es, height, time);
    var picked := seq(|at|, i requires 0 <= i < |at| => es[at[i]]);
    PickedInOrder(es, keys, at, picked);
    assert SlashesOf(SlashEntries(ReadAll(es), height, time), picked, height, time);
  }

  /** The data of known validators, one for each, in key order. */
  ghost predicate DataInValOrder(view: StakingView, data: seq<WasmValidator>) {
    exists vals :: InValOrder(vals) && |vals| == |data| && data == Converted(view, vals)
  }

  lemma {:induction false} ConvertedLength(view: StakingView, vals: seq<Addr>)
    requires forall i | 0 <= i < |vals| :: view.validator(vals[i]).Some?
    ensures |Converted(view, vals)| == |vals|
  {
    if vals != [] { ConvertedLength(view, vals[..|vals| - 1]); }
  }

  lemma AddrsKnown(view: StakingView, ps: seq<Piped>, op: byte)
    requires NeedsValidator(op) && forall i | 0 <= i < |ps| :: Reportable(view, ps[i])
    ensures |Converted(view, Addrs(ps, op))| == |Addrs(ps, op)|
  {
    forall i | 0 <= i < |Addrs(ps, op)| ensures view.validator(Addrs(ps, op)[i]).Some? {
      InAddrs(ps, op, Addrs(ps, op)[i]);
      assert Addrs(ps, op)[i] in Addrs(ps, op);
    }
    ConvertedLength(view, Addrs(ps, op));
  }

  /** Every list is free of duplicates and in the order of the keys of its events. */
  ghost predicate InOrder(view: StakingView, r: ValsetUpdate, events: set<Event>, height: Height, time: i64) {
    && DataInValOrder(view, r.additions)
    && InValOrder(r.removals)
    && DataInValOrder(view, r.updated)
    && InValOrder(r.jailed)
    && InValOrder(r.unjailed)
    && InValOrder(r.tombstoned)
    && Distinct(r.slashed)
    && SlashesInKeyOrder(r.slashed, events, height, time)
  }

  lemma ReportOrdered(view: StakingView, height: Height, time: i64, mem: Kv, events: set<Event>)
    requires Holds(mem, events)
    ensures var r := Report(view, height, time, mem);
            r.Ok? ==> InOrder(view, r.value, events, height, time)
  {
    var keys := Sorted(PipeKeys(mem));
    var es := PipeOrder(mem, events);
    var ps := ReadAll(es);
    KeysReadAs(es, keys);
    FoldLists(view, height, time, keys, ps);
    forall i, j | 0 <= i < j < |ps| ensures ps[i] != ps[j] {
      assert es[i] in events && es[j] in events && Lt(keys[i], keys[j]);
      LtIrreflexive(keys[i]);
      DeliverableInjective(es[i], es[j]);
    }
    SlashEntriesDistinct(ps, height, time);
    SlashesOrdered(es, keys, events, height, time);
    PlainListsOrdered(es, keys, events);
    if Report(view, height, time, mem).Ok? {
      AddrsKnown(view, ps, OP_BONDED);
      AddrsKnown(view, ps, OP_MODIFIED);
    }
  }

  lemma PlainListsOrdered(es: seq<Event>, keys: seq<Bytes>, events: set<Event>)
    requires InKeyOrder(es, keys, events)
    requires forall e | e in events :: Deliverable(e)
    requires forall i, j | 0 <= i < j < |keys| :: Lt(keys[i], keys[j])
    ensures forall op: byte | op != OP_SLASHED :: InValOrder(Addrs(ReadAll(es), op))
  {
    var ps := ReadAll(es);
    forall op: byte | op != OP_SLASHED ensures InValOrder(Addrs(ps, op)) {
      forall i, j | 0 <= i < j < |ps| && ps[i].op == op == ps[j].op
        ensures ValBefore(ps[i].val, ps[j].val) && ps[i].val != ps[j].val
      {
        assert es[i] in events && es[j] in events && Lt(keys[i], keys[j]);
        PlainKeyOrder(es[i], es[j]);
        LtAsymmetric([U8(|es[i].val|)] + es[i].val, [U8(|es[j].val|)] + es[j].val);
      }
      AddrsOrdered(ps, op);
    }
  }
}
