/** Store keys: builders, what they decode to, and the order they sort in. */
module Keys {
  import opened Bytes
  import opened Types

  /** First bytes of the keys of cap limits and of delegated totals. */
  const CAP: byte := 0x2
  const DELEGATED: byte := 0x3
  const SCHEDULER_PREFIX: Bytes := [0x4]
  const PIPED_VALSET_PREFIX: Bytes := [0x5]

  const TASK_UNDEFINED: byte := 0
  const TASK_HANDLE_EPOCH: byte := 1
  const TASK_VALSET_UPDATE: byte := 2

  /** The key of an amount kept for a contract. */
  function AmountKey(p: byte, contract: Addr): Bytes {
    [p] + contract
  }

  /** An entry of the scheduler: what to call, when, and for whom. */
  datatype Task = Task(tp: byte, height: u64, contract: Addr)

  function TypePrefix(tp: byte): Bytes {
    SCHEDULER_PREFIX + [tp]
  }

  function HeightPrefix(tp: byte, height: u64): Bytes {
    TypePrefix(tp) + Be64(height)
  }

  function TaskKey(t: Task): Bytes {
    HeightPrefix(t.tp, t.height) + t.contract
  }

  method BuildSchedulerTypeKeyPrefix(tp: byte) returns (r: Result<Bytes>)
    ensures r == if tp == TASK_UNDEFINED then Err(Invalid) else Ok(TypePrefix(tp))
  {
    if tp == TASK_UNDEFINED {
      return Err(Invalid);
    }
    return Ok(SCHEDULER_PREFIX + [tp]);
  }

  method BuildSchedulerHeightKeyPrefix(tp: byte, height: u64) returns (r: Result<Bytes>)
    ensures r == if tp == TASK_UNDEFINED then Err(Invalid) else Ok(HeightPrefix(tp, height))
  {
    var prefix := BuildSchedulerTypeKeyPrefix(tp);
    if prefix.Err? { return prefix; }
    return Ok(prefix.value + Be64(height));
  }

  method BuildSchedulerContractKey(tp: byte, height: u64, contract: Addr) returns (r: Result<Bytes>)
    ensures r == if tp == TASK_UNDEFINED then Err(Invalid) else Ok(TaskKey(Task(tp, height, contract)))
  {
    var prefix := BuildSchedulerHeightKeyPrefix(tp, height);
    if prefix.Err? { return prefix; }
    return Ok(prefix.value + contract);
  }

  /** The shape of every key the scheduler writes. */
  predicate IsTaskKey(k: Bytes) {
    |k| >= 10 && k[0] == 0x4
  }

  /** What the iterator callback reads back from a key. */
  function ReadTask(k: Bytes): Task
    requires IsTaskKey(k)
  {
    Task(k[1], FromBe64(k[2..10]), k[10..])
  }

  /** The bytes of the keys: 0x02 or 0x03 and the contract for its cap or its
      total; 0x04, the type, eight bytes of the height and the contract for a task. */
  lemma KeyLayout(t: Task, c: Addr)
    ensures AmountKey(CAP, c) == [0x02] + c && AmountKey(DELEGATED, c) == [0x03] + c
    ensures var k := TaskKey(t);
            |k| == 10 + |t.contract| && k[0] == 0x04 && k[1] == t.tp && k[10..] == t.contract
    ensures FromBe64(TaskKey(t)[2..10]) == t.height
  {
    var k := TaskKey(t);
    assert k[2..10] == Be64(t.height) && k[10..] == t.contract;
    Be64Facts(t.height, t.height);
  }

  lemma TaskKeyRoundTrip(t: Task)
    ensures IsTaskKey(TaskKey(t)) && ReadTask(TaskKey(t)) == t
  {
    var k := TaskKey(t);
    assert k[2..10] == Be64(t.height) && k[10..] == t.contract;
    Be64Facts(t.height, t.height);
  }

  lemma ReadTaskRoundTrip(k: Bytes)
    requires IsTaskKey(k)
    ensures TaskKey(ReadTask(k)) == k
  {
    FromBe64RoundTrip(k[2..10]);
    assert k == [k[0]] + [k[1]] + k[2..10] + k[10..];
  }

  /** Different tasks have different keys. */
  lemma TaskKeyInjective(a: Task, b: Task)
    ensures TaskKey(a) == TaskKey(b) <==> a == b
  {
    TaskKeyRoundTrip(a);
    TaskKeyRoundTrip(b);
  }

  /** Execution order within a task type. */
  predicate Before(a: Task, b: Task) {
    a.height < b.height || (a.height == b.height && Lt(a.contract, b.contract))
  }

  /** Tasks of one type sort by height, then by contract. */
  lemma TaskKeyOrder(a: Task, b: Task)
    requires a.tp == b.tp
    ensures Lt(TaskKey(a), TaskKey(b)) <==> Before(a, b)
  {
    var p := TypePrefix(a.tp);
    assert TaskKey(a) == p + (Be64(a.height) + a.contract);
    assert TaskKey(b) == p + (Be64(b.height) + b.contract);
    LtPrefix(p, Be64(a.height) + a.contract, Be64(b.height) + b.contract);
    LtConcat(Be64(a.height), a.contract, Be64(b.height), b.contract);
    Be64Facts(a.height, b.height);
  }

  /** A type prefix covers exactly the keys of that task type. */
  lemma TypePrefixCovers(tp: byte, k: Bytes)
    requires IsTaskKey(k)
    ensures TypePrefix(tp) <= k <==> ReadTask(k).tp == tp
  {
  }
}
