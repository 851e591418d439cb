/** Spreading tasks over the minutes of the hour: the choice that `AddTask` makes from the
    bucket loads, and what it keeps of the balance. */
module Buckets {
  import opened Options
  import opened Schedule

  const BUCKETS := 60

  /** Tasks that count towards a bucket's load. */
  predicate Counts(task: Task) { task.status == IDLE || task.status == SKIP }

  function InBucket(tasks: Tasks, b: int): set<int> {
    set id | id in tasks && Counts(tasks[id]) && tasks[id].bucket == b
  }

  function Load(tasks: Tasks, b: int): nat { |InBucket(tasks, b)| }

  /** The rows of `get_buckets_loading`, one per bucket with tasks, in any order. */
  predicate LoadingOf(tasks: Tasks, items: seq<(int, nat)>) {
    && DistinctRows(items)
    && (forall i :: 0 <= i < |items| ==>
          items[i].1 > 0 && items[i].1 == Load(tasks, items[i].0) && 0 <= items[i].0 < BUCKETS)
    && forall b :: 0 <= b < BUCKETS && Load(tasks, b) > 0 ==> exists i :: 0 <= i < |items| && items[i].0 == b
  }

  predicate Missing(items: seq<(int, nat)>, b: int) { forall i :: 0 <= i < |items| ==> items[i].0 != b }

  predicate DistinctRows(items: seq<(int, nat)>) { forall i, j :: 0 <= i < j < |items| ==> items[i].0 != items[j].0 }

  function Without(items: seq<(int, nat)>, i: nat): seq<(int, nat)>
    requires i < |items|
  {
    items[..i] + items[i + 1..]
  }

  lemma RowRemoved(items: seq<(int, nat)>, i: nat, b: int)
    requires DistinctRows(items) && i < |items|
    ensures DistinctRows(Without(items, i))
    ensures Missing(items, b) <==> Missing(Without(items, i), b) && b != items[i].0
    ensures Missing(Without(items, i), items[i].0)
  {
    var rest := Without(items, i);
    forall k | 0 <= k < |rest| ensures rest[k] == items[if k < i then k else k + 1] {
    }
    forall k | 0 <= k < |items| && k != i ensures items[k] == rest[if k < i then k else k - 1] {
    }
  }

  /** Fewer distinct rows than buckets leave one out. */
  lemma {:induction false} SomeBucketIsMissing(items: seq<(int, nat)>, n: nat)
    requires DistinctRows(items) && |items| < n
    ensures exists b :: 0 <= b < n && Missing(items, b)
  {
    if !Missing(items, n - 1) {
      var i :| 0 <= i < |items| && items[i].0 == n - 1;
      RowRemoved(items, i, 0);
      SomeBucketIsMissing(Without(items, i), n - 1);
      var b :| 0 <= b < n - 1 && Missing(Without(items, i), b);
      RowRemoved(items, i, b);
    }
  }

  lemma {:induction false} AtMostSoMany(items: seq<(int, nat)>, n: nat)
    requires DistinctRows(items) && forall b :: !Missing(items, b) ==> 0 <= b < n
    ensures |items| <= n
  {
    if items != [] {
      assert !Missing(items, items[0].0);
      if !Missing(items, n - 1) {
        var i :| 0 <= i < |items| && items[i].0 == n - 1;
        forall b | !Missing(Without(items, i), b) ensures 0 <= b < n - 1 {
          RowRemoved(items, i, b);
        }
        RowRemoved(items, i, 0);
        AtMostSoMany(Without(items, i), n - 1);
      } else {
        AtMostSoMany(items, n - 1);
      }
    }
  }

  /** As many distinct rows as buckets name every bucket. */
  lemma EveryBucketIsListed(items: seq<(int, nat)>, b: int)
    requires DistinctRows(items) && (forall i :: 0 <= i < |items| ==> 0 <= items[i].0 < BUCKETS)
    requires |items| >= BUCKETS && 0 <= b < BUCKETS
    ensures !Missing(items, b)
  {
    if Missing(items, b) {
      AtMostSoMany(items + [(b, 1)], BUCKETS);
    }
  }

  /** The first bucket without tasks, else the first row of least load. */
  method SelectBucket(items: seq<(int, nat)>, ghost tasks: Tasks) returns (b: int)
    requires LoadingOf(tasks, items)
    ensures 0 <= b < BUCKETS
    ensures forall k :: 0 <= k < BUCKETS ==> Load(tasks, b) <= Load(tasks, k)
    ensures Load(tasks, b) == 0 ==> forall k :: 0 <= k < b ==> Load(tasks, k) > 0
  {
    hide Load;
    var selected := None;
    if |items| < BUCKETS {
      SomeBucketIsMissing(items, BUCKETS);
      var bucket := 0;
      while bucket < BUCKETS
        invariant 0 <= bucket <= BUCKETS && selected.None?
        invariant forall k :: 0 <= k < bucket ==> !Missing(items, k) && Load(tasks, k) > 0
      {
        var listed := exists i :: 0 <= i < |items| && items[i].0 == bucket;
        if !listed {
          selected := Some(bucket);
          break;
        }
        assert !Missing(items, bucket);
        bucket := bucket + 1;
      }
      assert selected.Some?;
    }
    if selected.None? {
      var least := 0;
      var i := 1;
      while i < |items|
        invariant 1 <= i <= |items| && 0 <= least < i
        invariant forall j :: 0 <= j < i ==> items[least].1 <= items[j].1
      {
        if items[i].1 < items[least].1 {
          least := i;
        }
        i := i + 1;
      }
      selected := Some(items[least].0);
      forall k | 0 <= k < BUCKETS ensures items[least].1 <= Load(tasks, k) {
        EveryBucketIsListed(items, k);
        var j :| 0 <= j < |items| && items[j].0 == k;
      }
    }
    b := selected.value;
  }

  // ---------- Balance ----------

  predicate LeastLoaded(tasks: Tasks, b: int) {
    0 <= b < BUCKETS && forall k :: 0 <= k < BUCKETS ==> Load(tasks, b) <= Load(tasks, k)
  }

  /** No two buckets differ by more than `spread`. */
  predicate Within(tasks: Tasks, spread: nat) {
    forall i, j :: 0 <= i < BUCKETS && 0 <= j < BUCKETS ==> Load(tasks, i) <= Load(tasks, j) + spread
  }

  function NewTask(url: string, b: int, now: int): Task { Task(url, IDLE, b, None, now) }

  /** A load counts the idle and the skipped tasks of its bucket. */
  lemma LoadCounts(tasks: Tasks, id: int, task: Task, k: int)
    ensures Load(map[], k) == 0
    ensures id !in tasks ==>
      Load(tasks[id := task], k)
      == Load(tasks, k) + if task.bucket == k && (task.status == IDLE || task.status == SKIP) then 1 else 0
  {
    assert InBucket(map[], k) == {};
    if id !in tasks {
      assert id !in InBucket(tasks, k);
      OneMoreInBucket(tasks, id, task, k);
      hide InBucket;
      assert |InBucket(tasks, k) + {id}| == Load(tasks, k) + 1;
    }
  }

  lemma OneMoreInBucket(tasks: Tasks, id: int, task: Task, k: int)
    requires id !in tasks
    ensures InBucket(tasks[id := task], k)
         == if task.bucket == k && (task.status == IDLE || task.status == SKIP) then InBucket(tasks, k) + {id}
            else InBucket(tasks, k)
  {
  }

  lemma NewTaskLoad(tasks: Tasks, id: int, url: string, b: int, now: int, k: int)
    requires id !in tasks
    ensures Load(tasks[id := NewTask(url, b, now)], k) == Load(tasks, k) + if k == b then 1 else 0
  {
    LoadCounts(tasks, id, NewTask(url, b, now), k);
  }

  /** Adding to a least loaded bucket widens the spread only of perfectly even loads, and
      those it does widen. */
  lemma AddKeepsSpread(tasks: Tasks, id: int, url: string, b: int, now: int, spread: nat)
    requires id !in tasks && LeastLoaded(tasks, b) && Within(tasks, spread)
    ensures Within(tasks[id := NewTask(url, b, now)], spread) <==> spread > 0
    ensures Within(tasks[id := NewTask(url, b, now)], if spread == 0 then 1 else spread)
  {
    hide Load, NewTask;
    var after := tasks[id := NewTask(url, b, now)];
    forall k | 0 <= k < BUCKETS ensures Load(after, k) == Load(tasks, k) + if k == b then 1 else 0 {
      NewTaskLoad(tasks, id, url, b, now, k);
    }
    if spread == 0 {
      var other := if b == 0 then 1 else 0;
      assert Load(tasks, b) <= Load(tasks, other) + spread && Load(after, other) == Load(tasks, other);
      assert Load(tasks, other) <= Load(tasks, b) + spread;
      assert !(Load(after, b) <= Load(after, other) + spread);
    }
  }

  /** One call after another: an added task, or a task that stops counting. */
  datatype Change = Add(id: int, url: string, bucket: int, now: int) | Drop(id: int, status: Status)

  predicate Possible(tasks: Tasks, change: Change) {
    match change
    case Add(id, _, b, _) => id !in tasks && LeastLoaded(tasks, b)
    case Drop(id, status) => id in tasks && (status == EXISTS || status == ERROR)
  }

  function Changed(tasks: Tasks, change: Change): Tasks
    requires Possible(tasks, change)
  {
    match change
    case Add(id, url, b, now) => tasks[id := NewTask(url, b, now)]
    case Drop(id, status) => tasks[id := tasks[id].(status := status)]
  }

  predicate Sequence(tasks: Tasks, changes: seq<Change>)
    decreases changes
  {
    changes == [] || (Possible(tasks, changes[0]) && Sequence(Changed(tasks, changes[0]), changes[1..]))
  }

  function Result(tasks: Tasks, changes: seq<Change>): Tasks
    requires Sequence(tasks, changes)
    decreases changes
  {
    if changes == [] then tasks else Result(Changed(tasks, changes[0]), changes[1..])
  }

  /** Any number of adds keeps the loads within one of each other, or within whatever larger
      spread they started from. */
  lemma {:induction false} AddsStayBalanced(tasks: Tasks, changes: seq<Change>, spread: nat)
    requires Sequence(tasks, changes) && (forall i :: 0 <= i < |changes| ==> changes[i].Add?)
    requires Within(tasks, spread) && spread >= 1
    ensures Within(Result(tasks, changes), spread)
    decreases changes
  {
    if changes != [] {
      AddKeepsSpread(tasks, changes[0].id, changes[0].url, changes[0].bucket, changes[0].now, spread);
      AddsStayBalanced(Changed(tasks, changes[0]), changes[1..], spread);
    }
  }

  /** All tasks that count in the buckets below `k`. */
  function Total(tasks: Tasks, k: nat): nat { if k == 0 then 0 else Total(tasks, k - 1) + Load(tasks, k - 1) }

  lemma {:induction false} TotalAfterAdd(tasks: Tasks, id: int, url: string, b: int, now: int, k: nat)
    requires id !in tasks && 0 <= b
    ensures Total(tasks[id := NewTask(url, b, now)], k) == Total(tasks, k) + if b < k then 1 else 0
  {
    if k > 0 {
      TotalAfterAdd(tasks, id, url, b, now, k - 1);
      NewTaskLoad(tasks, id, url, b, now, k - 1);
    }
  }

  lemma {:induction false} TotalAfterAdds(tasks: Tasks, changes: seq<Change>)
    requires Sequence(tasks, changes) && forall i :: 0 <= i < |changes| ==> changes[i].Add?
    ensures Total(Result(tasks, changes), BUCKETS) == Total(tasks, BUCKETS) + |changes|
    decreases changes
  {
    if changes != [] {
      TotalAfterAdd(tasks, changes[0].id, changes[0].url, changes[0].bucket, changes[0].now, BUCKETS);
      TotalAfterAdds(Changed(tasks, changes[0]), changes[1..]);
    }
  }

  /** One bucket among others that differ from it by at most one. */
  lemma {:induction false} TotalAround(tasks: Tasks, b: int, load: nat, k: nat)
    requires 0 <= b < BUCKETS && Load(tasks, b) == load && Within(tasks, 1) && k <= BUCKETS
    ensures k * load - k <= Total(tasks, k) <= k * load + k
    ensures b < k ==> k * load - k < Total(tasks, k) < k * load + k
  {
    hide Load;
    if k > 0 {
      TotalAround(tasks, b, load, k - 1);
      assert Load(tasks, k - 1) <= load + 1 && load <= Load(tasks, k - 1) + 1;
      assert k * load == (k - 1) * load + load;
    }
  }

  /** From the empty table, n adds one after the other put n/60 tasks into every bucket,
      rounded down or up. */
  lemma AddsFromEmpty(changes: seq<Change>, b: int)
    requires Sequence(map[], changes) && forall i :: 0 <= i < |changes| ==> changes[i].Add?
    requires 0 <= b < BUCKETS
    ensures Within(Result(map[], changes), 1)
    ensures |changes| / BUCKETS <= Load(Result(map[], changes), b) <= (|changes| + BUCKETS - 1) / BUCKETS
  {
    forall k ensures Load(map[], k) == 0 {
      assert InBucket(map[], k) == {};
    }
    NothingInTotal(BUCKETS);
    AddsStayBalanced(map[], changes, 1);
    TotalAfterAdds(map[], changes);
    TotalAround(Result(map[], changes), b, Load(Result(map[], changes), b), BUCKETS);
  }

  lemma {:induction false} NothingInTotal(k: nat)
    ensures Total(map[], k) == 0
  {
    if k > 0 {
      NothingInTotal(k - 1);
      assert InBucket(map[], k - 1) == {};
    }
  }

  lemma {:induction false} DroppedLoad(tasks: Tasks, id: int, status: Status, k: int)
    requires id in tasks && (status == EXISTS || status == ERROR)
    ensures Load(tasks[id := tasks[id].(status := status)], k)
            == Load(tasks, k) - if Counts(tasks[id]) && tasks[id].bucket == k then 1 else 0
  {
    var after := tasks[id := tasks[id].(status := status)];
    if id in InBucket(tasks, k) {
      assert InBucket(tasks, k) == InBucket(after, k) + {id};
    } else {
      assert InBucket(tasks, k) == InBucket(after, k);
    }
  }

  function Drops(changes: seq<Change>): nat {
    if changes == [] then 0 else (if changes[0].Drop? then 1 else 0) + Drops(changes[1..])
  }

  lemma DropWidensByOne(tasks: Tasks, id: int, status: Status, spread: nat)
    requires id in tasks && (status == EXISTS || status == ERROR) && Within(tasks, spread)
    ensures Within(tasks[id := tasks[id].(status := status)], spread + 1)
  {
    hide Load;
    var after := tasks[id := tasks[id].(status := status)];
    forall k ensures Load(after, k) == Load(tasks, k) - if Counts(tasks[id]) && tasks[id].bucket == k then 1 else 0 {
      DroppedLoad(tasks, id, status, k);
    }
    forall i, j | 0 <= i < BUCKETS && 0 <= j < BUCKETS ensures Load(after, i) <= Load(after, j) + (spread + 1) {
      assert Load(tasks, i) <= Load(tasks, j) + spread;
    }
  }

  /** In any order of adds and drops, each drop widens the spread by at most one and no add
      widens it past one. */
  lemma {:induction false} SpreadIsBounded(tasks: Tasks, changes: seq<Change>, spread: nat)
    requires Sequence(tasks, changes) && Within(tasks, spread) && spread >= 1
    ensures Within(Result(tasks, changes), spread + Drops(changes))
    decreases changes
  {
    if changes != [] {
      var first := changes[0];
      if first.Add? {
        AddKeepsSpread(tasks, first.id, first.url, first.bucket, first.now, spread);
        SpreadIsBounded(Changed(tasks, first), changes[1..], spread);
      } else {
        DropWidensByOne(tasks, first.id, first.status, spread);
        SpreadIsBounded(Changed(tasks, first), changes[1..], spread + 1);
      }
    }
  }
}
