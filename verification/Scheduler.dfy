/** The block scheduler: tasks kept under ordered byte keys, scanned while they
    are being changed, and the plain table this index stands for. */
module Scheduler {
  import opened Bytes
  import opened Types
  import opened Order
  import opened Keys

  // ------------------------------------------------- the table of a store

  /** Tasks with their repeat flag. */
  type Table = map<Task, bool>

  function ToByte(b: bool): byte {
    if b then 1 else 0
  }

  predicate IsRepeat(v: Bytes) {
    v == [ToByte(true)]
  }

  /** Only the scheduler writes under its prefix. */
  predicate WellFormed(store: Kv) {
    forall k | k in store && SCHEDULER_PREFIX <= k :: IsTaskKey(k)
  }

  function TaskSet(store: Kv): set<Task> {
    set k | k in store && IsTaskKey(k) :: ReadTask(k)
  }

  lemma InTaskSet(store: Kv, t: Task)
    ensures t in TaskSet(store) <==> TaskKey(t) in store
  {
    TaskKeyRoundTrip(t);
    if t in TaskSet(store) {
      var k :| k in store && IsTaskKey(k) && ReadTask(k) == t;
      ReadTaskRoundTrip(k);
    }
  }

  lemma AllInTaskSet(store: Kv)
    ensures forall t :: t in TaskSet(store) <==> TaskKey(t) in store
  {
    forall t ensures t in TaskSet(store) <==> TaskKey(t) in store { InTaskSet(store, t); }
  }

  /** `t` is what the store says about tasks. */
  ghost predicate IsTable(store: Kv, t: Table) {
    && (forall x {:trigger TaskKey(x)} :: x in t <==> TaskKey(x) in store)
    && (forall x {:trigger TaskKey(x)} | x in t :: t[x] == IsRepeat(store[TaskKey(x)]))
  }

  ghost function Tasks(store: Kv): Table {
    AllInTaskSet(store);
    assert IsTable(store, map x | x in TaskSet(store) :: IsRepeat(store[TaskKey(x)]));
    var t :| IsTable(store, t);
    t
  }

  /** What the store says about anything else. */
  function Others(store: Kv): Kv {
    map k | k in store && !IsTaskKey(k) :: store[k]
  }

  lemma TasksAt(store: Kv, t: Task)
    ensures t in Tasks(store) <==> TaskKey(t) in store
    ensures t in Tasks(store) ==> Tasks(store)[t] == IsRepeat(store[TaskKey(t)])
  {
    AllInTaskSet(store);
  }

  lemma TasksAre(store: Kv, t: Table)
    requires forall x :: x in t <==> TaskKey(x) in store
    requires forall x | x in t :: t[x] == IsRepeat(store[TaskKey(x)])
    ensures Tasks(store) == t
  {
    AllInTaskSet(store);
  }

  lemma SetTask(store: Kv, t: Task, repeat: bool)
    requires WellFormed(store)
    ensures var s := store[TaskKey(t) := [ToByte(repeat)]];
            Tasks(s) == Tasks(store)[t := repeat] && Others(s) == Others(store) && WellFormed(s)
  {
    var s := store[TaskKey(t) := [ToByte(repeat)]];
    TaskKeyRoundTrip(t);
    assert Others(s) == Others(store);
    assert Tasks(s) == Tasks(store)[t := repeat] by {
      forall x ensures TaskKey(x) in s <==> x in Tasks(store)[t := repeat]
               ensures TaskKey(x) in s ==> IsRepeat(s[TaskKey(x)]) == Tasks(store)[t := repeat][x]
      {
        TasksAt(store, x);
        TaskKeyInjective(x, t);
      }
      TasksAre(s, Tasks(store)[t := repeat]);
    }
  }

  lemma DropTask(store: Kv, t: Task)
    requires WellFormed(store)
    ensures var s := store - {TaskKey(t)};
            Tasks(s) == Tasks(store) - {t} && Others(s) == Others(store) && WellFormed(s)
  {
    var s := store - {TaskKey(t)};
    TaskKeyRoundTrip(t);
    assert Others(s) == Others(store);
    assert Tasks(s) == Tasks(store) - {t} by {
      forall x ensures TaskKey(x) in s <==> x in Tasks(store) - {t}
               ensures TaskKey(x) in s ==> IsRepeat(s[TaskKey(x)]) == (Tasks(store) - {t})[x]
      {
        TasksAt(store, x);
        TaskKeyInjective(x, t);
      }
      TasksAre(s, Tasks(store) - {t});
    }
  }

  // ------------------------------------------------- the list of due tasks

  function DueSet(t: Table, tp: byte, maxHeight: u64): set<Task> {
    set x | x in t && x.tp == tp && x.height <= maxHeight
  }

  function KeySet(s: set<Task>): set<Bytes> {
    set x | x in s :: TaskKey(x)
  }

  lemma InKeySet(s: set<Task>, x: Task)
    ensures TaskKey(x) in KeySet(s) <==> x in s
  {
    if TaskKey(x) in KeySet(s) {
      var y :| y in s && TaskKey(y) == TaskKey(x);
      TaskKeyInjective(x, y);
    }
  }

  lemma KeysAreTasks(s: set<Task>)
    ensures forall k | k in KeySet(s) :: IsTaskKey(k) && TaskKey(ReadTask(k)) == k
  {
    forall k | k in KeySet(s) ensures IsTaskKey(k) && TaskKey(ReadTask(k)) == k {
      var x :| x in s && TaskKey(x) == k;
      TaskKeyRoundTrip(x);
    }
  }

  function KeysOf(ts: seq<Task>): (r: seq<Bytes>)
    ensures |r| == |ts| && forall i | 0 <= i < |ts| :: r[i] == TaskKey(ts[i])
  {
    seq(|ts|, i requires 0 <= i < |ts| => TaskKey(ts[i]))
  }

  /** The tasks of one type up to a height, in execution order. */
  ghost function Due(t: Table, tp: byte, maxHeight: u64): (r: seq<Task>)
    ensures KeysOf(r) == Sorted(KeySet(DueSet(t, tp, maxHeight)))
  {
    var s := DueSet(t, tp, maxHeight);
    var ks := Sorted(KeySet(s));
    KeysAreTasks(s);
    assert forall i | 0 <= i < |ks| :: ks[i] in KeySet(s);
    seq(|ks|, i requires 0 <= i < |ks| => ReadTask(ks[i]))
  }

  /** `Due` lists exactly the tasks of the type up to the height, each once, by
      ascending height and then by contract. */
  lemma DueCharacterised(t: Table, tp: byte, maxHeight: u64)
    ensures var r := Due(t, tp, maxHeight);
            && (forall x :: x in r <==> x in t && x.tp == tp && x.height <= maxHeight)
            && (forall i, j | 0 <= i < j < |r| :: Before(r[i], r[j]) && r[i] != r[j])
  {
    var s := DueSet(t, tp, maxHeight);
    var r := Due(t, tp, maxHeight);
    var ks := KeysOf(r);
    forall x ensures x in r <==> x in s {
      InKeySet(s, x);
      if x in r {
        var i :| 0 <= i < |r| && r[i] == x;
        assert ks[i] in KeySet(s);
      }
      if x in s {
        var i :| 0 <= i < |ks| && ks[i] == TaskKey(x);
        TaskKeyInjective(r[i], x);
      }
    }
    forall i, j | 0 <= i < j < |r| ensures Before(r[i], r[j]) && r[i] != r[j] {
      assert Lt(ks[i], ks[j]);
      LtAsymmetric(ks[i], ks[j]);
      assert r[i] in s && r[j] in s;
      TaskKeyOrder(r[i], r[j]);
    }
  }

  /** ... and these properties determine the list. */
  lemma DueUnique(t: Table, tp: byte, maxHeight: u64, q: seq<Task>)
    requires forall x :: x in q <==> x in t && x.tp == tp && x.height <= maxHeight
    requires forall i, j | 0 <= i < j < |q| :: Before(q[i], q[j])
    ensures q == Due(t, tp, maxHeight)
  {
    var s := DueSet(t, tp, maxHeight);
    var ks := KeysOf(q);
    forall i, j | 0 <= i < j < |ks| ensures Lt(ks[i], ks[j]) {
      assert q[i] in q && q[j] in q;
      TaskKeyOrder(q[i], q[j]);
    }
    forall i | 0 <= i < |ks| ensures ks[i] in KeySet(s) { assert q[i] in s; }
    forall k | k in KeySet(s) ensures k in ks {
      var x :| x in s && TaskKey(x) == k;
      var i :| 0 <= i < |q| && q[i] == x;
      assert ks[i] == k;
    }
    SortedIs(ks, KeySet(s));
    var r := Due(t, tp, maxHeight);
    forall i | 0 <= i < |q| ensures q[i] == r[i] { TaskKeyInjective(q[i], r[i]); }
  }

  // ------------------------------------------------------- abstract effects

  /** A one-shot registration; an existing entry wins. */
  function OneShot(t: Table, x: Task): Table {
    if x in t then t else t[x := false]
  }

  /** A repeating registration overwrites. */
  function Repeating(t: Table, x: Task): Table {
    t[x := true]
  }

  /** The entries a pass at height `now` adds for the visited tasks. */
  function Rescheduled(t: Table, visited: set<Task>, now: Height, epochLength: u64): set<Task> {
    if epochLength == 0 || now + epochLength >= TWO_64 then {}
    else set x | x in visited && x in t && t[x] :: Task(x.tp, now + epochLength, x.contract)
  }

  /** The table when the pass has dealt with the tasks in `visited`. */
  function AfterVisits(t: Table, visited: set<Task>, now: Height, epochLength: u64): Table {
    Without(t, visited, Rescheduled(t, visited, now, epochLength))
  }

  /** `t` without the tasks in `gone` and with `again` as repeating tasks. */
  function Without(t: Table, gone: set<Task>, again: set<Task>): Table {
    (t - gone) + (map x | x in again :: true)
  }

  /** The table after a whole pass. */
  function AfterPass(t: Table, tp: byte, now: Height, epochLength: u64): Table {
    AfterVisits(t, DueSet(t, tp, now), now, epochLength)
  }

  /** A pass removes the due tasks of its type and nothing else, and adds one
      repeating entry an epoch ahead for every repeating task it removed. */
  lemma AfterPassCharacterised(t: Table, tp: byte, now: Height, epochLength: u64, x: Task)
    ensures var again :=
              && x.tp == tp && 0 < epochLength && x.height == now + epochLength
              && (exists h: u64 :: h <= now && Task(tp, h, x.contract) in t && t[Task(tp, h, x.contract)]);
            var kept := x in t && !(x.tp == tp && x.height <= now);
            && (x in AfterPass(t, tp, now, epochLength) <==> kept || again)
            && (x in AfterPass(t, tp, now, epochLength) ==>
                  AfterPass(t, tp, now, epochLength)[x] == (again || t[x]))
  {
    var s := DueSet(t, tp, now);
    var r := Rescheduled(t, s, now, epochLength);
    if x in r {
      var y :| y in s && t[y] && x == Task(y.tp, now + epochLength, y.contract);
      assert y == Task(tp, y.height, x.contract);
    }
    if h: u64 :|
      && x.tp == tp && 0 < epochLength && x.height == now + epochLength
      && h <= now && Task(tp, h, x.contract) in t && t[Task(tp, h, x.contract)]
    {
      assert Task(tp, h, x.contract) in s;
      assert x in r;
    }
  }

  lemma RescheduledStep(t: Table, visited: set<Task>, x: Task, now: Height, epochLength: u64)
    requires x in t
    ensures var more := if t[x] && epochLength != 0 && now + epochLength < TWO_64
                        then {Task(x.tp, now + epochLength, x.contract)} else {};
            Rescheduled(t, visited + {x}, now, epochLength) == Rescheduled(t, visited, now, epochLength) + more
  {
  }

  lemma WithoutStep(t: Table, gone: set<Task>, again: set<Task>, x: Task)
    requires x !in again
    ensures Without(t, gone + {x}, again) == Without(t, gone, again) - {x}
  {
  }

  lemma WithoutAgain(t: Table, gone: set<Task>, again: set<Task>, z: Task)
    ensures Without(t, gone, again + {z}) == Repeating(Without(t, gone, again), z)
  {
    var a := Without(t, gone, again + {z});
    var b := Repeating(Without(t, gone, again), z);
    assert a.Keys == b.Keys;
  }

  /** Visiting one more task: re-register it when it repeats, then drop it. The
      drop never hits the new entry. */
  lemma AfterVisitsStep(t: Table, visited: set<Task>, x: Task, now: Height, epochLength: u64)
    requires x in t && x !in visited && x.height <= now
    ensures var before := AfterVisits(t, visited, now, epochLength);
            var again := t[x] && epochLength != 0 && now + epochLength < TWO_64;
            var mid := if again then Repeating(before, Task(x.tp, now + epochLength, x.contract)) else before;
            && x in before && before[x] == t[x]
            && AfterVisits(t, visited + {x}, now, epochLength) == mid - {x}
  {
    var r0 := Rescheduled(t, visited, now, epochLength);
    var r1 := Rescheduled(t, visited + {x}, now, epochLength);
    RescheduledStep(t, visited, x, now, epochLength);
    NotRescheduled(t, visited, x, now, epochLength);
    NotRescheduled(t, visited + {x}, x, now, epochLength);
    WithoutStep(t, visited, r1, x);
    NotYetGone(t, visited, r0, x);
    if t[x] && epochLength != 0 && now + epochLength < TWO_64 {
      var z := Task(x.tp, now + epochLength, x.contract);
      WithoutAgain(t, visited, r0, z);
      assert Without(t, visited, r1) == Repeating(Without(t, visited, r0), z);
    } else {
      assert r1 == r0;
    }
  }

  lemma NotYetGone(t: Table, gone: set<Task>, again: set<Task>, x: Task)
    requires x in t && x !in gone && x !in again
    ensures x in Without(t, gone, again) && Without(t, gone, again)[x] == t[x]
  {
  }

  lemma NotRescheduled(t: Table, visited: set<Task>, x: Task, now: Height, epochLength: u64)
    requires x.height <= now
    ensures x !in Rescheduled(t, visited, now, epochLength)
  {
  }

  // ----------------------------------------------------- scanning the index

  /** The due keys an iterator positioned after `cursor` has not reached. */
  ghost function DueAhead(view: Kv, tp: byte, cursor: Option<Bytes>, maxHeight: u64): set<Bytes> {
    set k | k in Ahead(view, TypePrefix(tp), cursor) && IsTaskKey(k) && ReadTask(k).height <= maxHeight
  }

  lemma DueKeys(store: Kv, tp: byte, maxHeight: u64)
    ensures DueAhead(store, tp, None, maxHeight) == KeySet(DueSet(Tasks(store), tp, maxHeight))
  {
    var s := DueSet(Tasks(store), tp, maxHeight);
    forall k ensures k in DueAhead(store, tp, None, maxHeight) <==> k in KeySet(s) {
      if k in DueAhead(store, tp, None, maxHeight) {
        ReadTaskRoundTrip(k);
        TypePrefixCovers(tp, k);
        TasksAt(store, ReadTask(k));
      }
      if k in KeySet(s) {
        var x :| x in s && TaskKey(x) == k;
        TaskKeyRoundTrip(x);
        TypePrefixCovers(tp, k);
        TasksAt(store, x);
      }
    }
  }

  /** The state of a scan: `visited` lists the lowest due keys, and the due keys
      still ahead in the view are the others. */
  ghost predicate Scanning(
    view: Kv, tp: byte, cursor: Option<Bytes>, maxHeight: u64, due: set<Bytes>, visited: seq<Task>, done: set<Bytes>)
  {
    && WellFormed(view)
    && Lists(KeysOf(visited), done)
    && done <= due
    && DueAhead(view, tp, cursor, maxHeight) == due - done
    && (cursor.None? ==> done == {})
    && (cursor.Some? ==> forall x | x in done :: x == cursor.value || Lt(x, cursor.value))
  }

  lemma ScanStart(view: Kv, tp: byte, maxHeight: u64)
    requires WellFormed(view)
    ensures Scanning(view, tp, None, maxHeight, DueAhead(view, tp, None, maxHeight), [], {})
  {
  }

  lemma UnderTypePrefix(view: Kv, tp: byte, cursor: Option<Bytes>, k: Bytes)
    requires WellFormed(view) && k in Ahead(view, TypePrefix(tp), cursor)
    ensures IsTaskKey(k) && ReadTask(k).tp == tp && TaskKey(ReadTask(k)) == k
  {
    assert SCHEDULER_PREFIX <= k;
    TypePrefixCovers(tp, k);
    ReadTaskRoundTrip(k);
  }

  /** Visiting the next key keeps the scan in order. */
  lemma ScanVisit(
    view: Kv, tp: byte, cursor: Option<Bytes>, maxHeight: u64, due: set<Bytes>, visited: seq<Task>, done: set<Bytes>,
    k: Bytes)
    requires Scanning(view, tp, cursor, maxHeight, due, visited, done)
    requires IsLeast(Ahead(view, TypePrefix(tp), cursor), k) && IsTaskKey(k) && ReadTask(k).height <= maxHeight
    ensures Scanning(view, tp, Some(k), maxHeight, due, visited + [ReadTask(k)], done + {k})
    ensures k in due && k !in done
  {
    UnderTypePrefix(view, tp, cursor, k);
    AheadAfter(view, TypePrefix(tp), cursor, k);
    assert k in DueAhead(view, tp, cursor, maxHeight);
    forall x | x in done ensures Lt(x, k) {
      if x != cursor.value { LtTransitive(x, cursor.value, k); }
    }
    ListsAppend(KeysOf(visited), done, k);
    assert KeysOf(visited + [ReadTask(k)]) == KeysOf(visited) + [k];
    assert DueAhead(view, tp, Some(k), maxHeight) == DueAhead(view, tp, cursor, maxHeight) - {k};
  }

  /** At the end of the index, or at the first future height, every due key has
      been visited: the early abort loses nothing. */
  lemma ScanEnd(
    view: Kv, tp: byte, cursor: Option<Bytes>, maxHeight: u64, due: set<Bytes>, visited: seq<Task>, done: set<Bytes>)
    requires Scanning(view, tp, cursor, maxHeight, due, visited, done)
    requires var next := Seek(view, TypePrefix(tp), cursor);
             next.Some? ==> IsTaskKey(next.value) && ReadTask(next.value).height > maxHeight
    ensures due == done
  {
    var next := Seek(view, TypePrefix(tp), cursor);
    if next.Some? {
      UnderTypePrefix(view, tp, cursor, next.value);
      forall k | k in Ahead(view, TypePrefix(tp), cursor) ensures k !in DueAhead(view, tp, cursor, maxHeight) {
        UnderTypePrefix(view, tp, cursor, k);
        if k != next.value {
          TaskKeyOrder(ReadTask(next.value), ReadTask(k));
        }
      }
    }
    assert DueAhead(view, tp, cursor, maxHeight) == {};
    assert due <= done by {
      forall k | k in due ensures k in done { assert k in due - done || k in done; }
    }
  }

  /** What has been visited is at every moment a prefix of the due list. */
  lemma ScanPrefix(
    view: Kv, tp: byte, cursor: Option<Bytes>, maxHeight: u64, visited: seq<Task>, done: set<Bytes>, t: Table)
    requires Scanning(view, tp, cursor, maxHeight, KeySet(DueSet(t, tp, maxHeight)), visited, done)
    ensures visited <= Due(t, tp, maxHeight)
  {
    var due := KeySet(DueSet(t, tp, maxHeight));
    forall x, y | x in done && y in due - done ensures Lt(x, y) {
      assert y in DueAhead(view, tp, cursor, maxHeight);
      if x != cursor.value { LtTransitive(x, cursor.value, y); }
    }
    ListsPrefix(KeysOf(visited), done, due);
    var r := Due(t, tp, maxHeight);
    forall i | 0 <= i < |visited| ensures visited[i] == r[i] {
      assert KeysOf(visited)[i] == KeysOf(r)[i];
      TaskKeyInjective(visited[i], r[i]);
    }
  }

  /** A complete scan has visited the whole due list. */
  lemma ScanComplete(
    view: Kv, tp: byte, cursor: Option<Bytes>, maxHeight: u64, visited: seq<Task>, done: set<Bytes>, t: Table)
    requires Scanning(view, tp, cursor, maxHeight, KeySet(DueSet(t, tp, maxHeight)), visited, done)
    requires done == KeySet(DueSet(t, tp, maxHeight))
    ensures visited == Due(t, tp, maxHeight)
  {
    ScanPrefix(view, tp, cursor, maxHeight, visited, done, t);
    SortedIs(KeysOf(visited), done);
    assert |visited| == |KeysOf(visited)| == |KeysOf(Due(t, tp, maxHeight))|;
  }

  /** The same task keys up to a height, the key `k` aside. */
  ghost predicate SameBelow(store: Kv, store': Kv, maxHeight: u64, k: Bytes) {
    forall x | IsTaskKey(x) && ReadTask(x).height <= maxHeight && x != k :: x in store <==> x in store'
  }

  /** Writes that only touch the visited key or future heights do not disturb a
      scan. */
  lemma ScanUndisturbed(
    view: Kv, view': Kv, tp: byte, k: Bytes, maxHeight: u64, due: set<Bytes>, visited: seq<Task>, done: set<Bytes>)
    requires Scanning(view, tp, Some(k), maxHeight, due, visited, done)
    requires WellFormed(view')
    requires SameBelow(view, view', maxHeight, k)
    ensures Scanning(view', tp, Some(k), maxHeight, due, visited, done)
  {
    LtIrreflexive(k);
    assert DueAhead(view', tp, Some(k), maxHeight) == DueAhead(view, tp, Some(k), maxHeight);
  }

  lemma KeySetAdd(s: set<Task>, x: Task)
    ensures KeySet(s + {x}) == KeySet(s) + {TaskKey(x)}
  {
  }

  lemma KeySetInjective(a: set<Task>, b: set<Task>)
    requires KeySet(a) == KeySet(b)
    ensures a == b
  {
    forall x ensures x in a <==> x in b {
      InKeySet(a, x);
      InKeySet(b, x);
    }
  }

  // ------------------------------------------- a scan in terms of the table

  /** A scan for the due tasks of table `t` has visited the tasks in `seen`. */
  ghost predicate Walking(
    view: Kv, tp: byte, cursor: Option<Bytes>, maxHeight: u64, t: Table, visited: seq<Task>, seen: set<Task>)
  {
    && seen <= DueSet(t, tp, maxHeight)
    && Scanning(view, tp, cursor, maxHeight, KeySet(DueSet(t, tp, maxHeight)), visited, KeySet(seen))
  }

  lemma WalkStart(store: Kv, tp: byte, maxHeight: u64)
    requires WellFormed(store)
    ensures Walking(store, tp, None, maxHeight, Tasks(store), [], {})
  {
    DueKeys(store, tp, maxHeight);
    ScanStart(store, tp, maxHeight);
    assert KeySet({}) == {};
  }

  /** The next key belongs to a due task that has not been visited. */
  lemma WalkNext(
    view: Kv, tp: byte, cursor: Option<Bytes>, maxHeight: u64, t: Table, visited: seq<Task>, seen: set<Task>, k: Bytes)
    requires Walking(view, tp, cursor, maxHeight, t, visited, seen)
    requires IsLeast(Ahead(view, TypePrefix(tp), cursor), k)
    requires IsTaskKey(k) && ReadTask(k).height <= maxHeight
    ensures var x := ReadTask(k); x in t && x.tp == tp && x !in seen && TaskKey(x) == k && x in DueSet(t, tp, maxHeight)
  {
    UnderTypePrefix(view, tp, cursor, k);
    ScanVisit(view, tp, cursor, maxHeight, KeySet(DueSet(t, tp, maxHeight)), visited, KeySet(seen), k);
    InKeySet(DueSet(t, tp, maxHeight), ReadTask(k));
    InKeySet(seen, ReadTask(k));
  }

  /** Visiting it, with writes that leave the other due keys alone. */
  lemma WalkStep(
    view: Kv, view': Kv, tp: byte, cursor: Option<Bytes>, maxHeight: u64, t: Table, visited: seq<Task>,
    seen: set<Task>, k: Bytes)
    requires Walking(view, tp, cursor, maxHeight, t, visited, seen)
    requires IsLeast(Ahead(view, TypePrefix(tp), cursor), k)
    requires IsTaskKey(k) && ReadTask(k).height <= maxHeight
    requires WellFormed(view') && SameBelow(view, view', maxHeight, k)
    ensures Walking(view', tp, Some(k), maxHeight, t, visited + [ReadTask(k)], seen + {ReadTask(k)})
  {
    var due := KeySet(DueSet(t, tp, maxHeight));
    WalkNext(view, tp, cursor, maxHeight, t, visited, seen, k);
    KeySetAdd(seen, ReadTask(k));
    ScanVisit(view, tp, cursor, maxHeight, due, visited, KeySet(seen), k);
    ScanUndisturbed(view, view', tp, k, maxHeight, due, visited + [ReadTask(k)], KeySet(seen) + {k});
  }

  lemma WalkPrefix(
    view: Kv, tp: byte, cursor: Option<Bytes>, maxHeight: u64, t: Table, visited: seq<Task>, seen: set<Task>)
    requires Walking(view, tp, cursor, maxHeight, t, visited, seen)
    ensures visited <= Due(t, tp, maxHeight)
  {
    ScanPrefix(view, tp, cursor, maxHeight, visited, KeySet(seen), t);
  }

  /** Stopping at the end of the index or at the first future height. */
  lemma WalkEnd(
    view: Kv, tp: byte, cursor: Option<Bytes>, maxHeight: u64, t: Table, visited: seq<Task>, seen: set<Task>)
    requires Walking(view, tp, cursor, maxHeight, t, visited, seen)
    requires var next := Seek(view, TypePrefix(tp), cursor);
             next.Some? ==> IsTaskKey(next.value) && ReadTask(next.value).height > maxHeight
    ensures visited == Due(t, tp, maxHeight) && seen == DueSet(t, tp, maxHeight)
  {
    var due := KeySet(DueSet(t, tp, maxHeight));
    ScanEnd(view, tp, cursor, maxHeight, due, visited, KeySet(seen));
    ScanComplete(view, tp, cursor, maxHeight, visited, KeySet(seen), t);
    KeySetInjective(seen, DueSet(t, tp, maxHeight));
  }
}
