/** Interleaved `ClaimTask` and `GetTasks` transactions: reading the clock, the locking
    select, each insert and the commit are separate steps, and anything else may happen to
    the tasks and the clock in between. */
module Claims {
  import opened Schedule

  /** A transaction of either operation. The rows it selected stay locked until it ends; its
      claims stay invisible to others until it commits. */
  datatype Txn =
    | Begun(now: int, limit: nat)
    | Selected(now: int, todo: seq<int>, pending: seq<Claim>)

  datatype State = State(clock: int, tasks: Tasks, claims: seq<Claim>, txns: map<nat, Txn>)

  datatype Step =
    | Tick(seconds: nat)
    | ChangeTasks(tasks: Tasks)
    | Begin(txn: nat, limit: nat)
    | Select(txn: nat, ids: seq<int>)
    | Insert(txn: nat)
    | Commit(txn: nat)
    | Rollback(txn: nat)

  predicate Locks(t: Txn, id: int) {
    t.Selected? && (id in t.todo || exists i :: 0 <= i < |t.pending| && t.pending[i].task == id)
  }

  predicate Locked(s: State, id: int) { exists k :: k in s.txns && Locks(s.txns[k], id) }

  predicate Distinct(ids: seq<int>) { forall i, j :: 0 <= i < j < |ids| ==> ids[i] != ids[j] }

  /** What `get_scheduled_tasks` may return: selected tasks, in bucket order, as many as the
      limit allows, the lowest buckets first, leaving out rows that others hold locked. */
  predicate Scheduled(s: State, now: int, limit: nat, ids: seq<int>) {
    && |ids| <= limit && Distinct(ids)
    && (forall i :: 0 <= i < |ids| ==>
          ids[i] in s.tasks && Eligible(s.tasks[ids[i]], ids[i], s.claims, now) && !Locked(s, ids[i]))
    && (forall i, j :: 0 <= i < j < |ids| ==> s.tasks[ids[i]].bucket <= s.tasks[ids[j]].bucket)
    && forall id :: id in s.tasks && id !in ids && Eligible(s.tasks[id], id, s.claims, now) && !Locked(s, id) ==>
         |ids| == limit && forall i :: 0 <= i < |ids| ==> s.tasks[ids[i]].bucket <= s.tasks[id].bucket
  }

  predicate Enabled(s: State, step: Step) {
    match step
    case Tick(_) => true
    case ChangeTasks(_) => true
    case Begin(k, _) => k !in s.txns
    case Select(k, ids) => k in s.txns && s.txns[k].Begun? && Scheduled(s, s.txns[k].now, s.txns[k].limit, ids)
    case Insert(k) => k in s.txns && s.txns[k].Selected? && s.txns[k].todo != []
    case Commit(k) => k in s.txns
    case Rollback(k) => k in s.txns
  }

  function Apply(s: State, step: Step): State
    requires Enabled(s, step)
  {
    match step
    case Tick(d) => s.(clock := s.clock + d)
    case ChangeTasks(tasks) => s.(tasks := tasks)
    case Begin(k, limit) => s.(txns := s.txns[k := Begun(s.clock, limit)])
    case Select(k, ids) => s.(txns := s.txns[k := Selected(s.txns[k].now, ids, [])])
    case Insert(k) =>
      var t := s.txns[k];
      s.(txns := s.txns[k := Selected(t.now, t.todo[1..], t.pending + [Claim(t.todo[0], s.clock)])])
    case Commit(k) =>
      var pending := if s.txns[k].Selected? then s.txns[k].pending else [];
      s.(claims := s.claims + pending, txns := s.txns - {k})
    case Rollback(k) => s.(txns := s.txns - {k})
  }

  predicate Runs(s: State, steps: seq<Step>)
    decreases steps
  {
    steps == [] || (Enabled(s, steps[0]) && Runs(Apply(s, steps[0]), steps[1..]))
  }

  function Exec(s: State, steps: seq<Step>): State
    requires Runs(s, steps)
    decreases steps
  {
    if steps == [] then s else Exec(Apply(s, steps[0]), steps[1..])
  }

  /** Claims of one task are stamped in strictly increasing hours. */
  ghost predicate HoursIncrease(claims: seq<Claim>) {
    forall i, j :: 0 <= i < j < |claims| && claims[i].task == claims[j].task
      ==> HourStart(claims[i].at) < HourStart(claims[j].at)
  }

  /** No committed claim of the task falls into the hour that starts here, or later. */
  ghost predicate Unclaimed(claims: seq<Claim>, id: int, hour: int) {
    forall i :: 0 <= i < |claims| && claims[i].task == id ==> HourStart(claims[i].at) < hour
  }

  ghost predicate TxnOk(s: State, t: Txn) {
    && t.now <= s.clock
    && (t.Selected? ==>
          && Distinct(t.todo)
          && (forall id :: id in t.todo ==> Unclaimed(s.claims, id, HourStart(t.now)))
          && (forall i, j :: 0 <= i < j < |t.pending| ==> t.pending[i].task != t.pending[j].task)
          && forall i :: 0 <= i < |t.pending| ==>
               t.pending[i].task !in t.todo && Unclaimed(s.claims, t.pending[i].task, HourStart(t.pending[i].at)))
  }

  ghost predicate LocksApart(s: State) {
    forall k, m, id :: k in s.txns && m in s.txns && Locks(s.txns[k], id) && Locks(s.txns[m], id) ==> k == m
  }

  ghost predicate Inv(s: State) {
    && HoursIncrease(s.claims)
    && LocksApart(s)
    && forall k :: k in s.txns ==> TxnOk(s, s.txns[k])
  }

  lemma LaterHour(t: int, u: int)
    requires t <= u
    ensures HourStart(t) <= HourStart(u)
  {
    Hours(t, u);
  }

  /** The query's claim filter, read through whole hours. */
  lemma NotClaimedMeansUnclaimed(claims: seq<Claim>, id: int, now: int)
    requires !Claimed(claims, id, HourStart(now))
    ensures Unclaimed(claims, id, HourStart(now))
  {
    forall i | 0 <= i < |claims| && claims[i].task == id ensures HourStart(claims[i].at) < HourStart(now) {
      assert claims[i].at < HourStart(now);
      assert HourStart(claims[i].at) <= claims[i].at;
    }
  }

  lemma SelectKeeps(s: State, k: nat, ids: seq<int>)
    requires Inv(s) && Enabled(s, Select(k, ids))
    ensures Inv(Apply(s, Select(k, ids)))
  {
    var t := Apply(s, Select(k, ids));
    forall id | id in ids ensures Unclaimed(s.claims, id, HourStart(s.txns[k].now)) && !Locked(s, id) {
      var i :| 0 <= i < |ids| && ids[i] == id;
      NotClaimedMeansUnclaimed(s.claims, id, s.txns[k].now);
    }
    forall m | m in t.txns ensures TxnOk(t, t.txns[m]) {
      assert m != k ==> TxnOk(s, s.txns[m]);
    }
  }

  lemma InsertKeeps(s: State, k: nat)
    requires Inv(s) && Enabled(s, Insert(k))
    ensures Inv(Apply(s, Insert(k)))
  {
    var t, u := s.txns[k], Apply(s, Insert(k));
    LaterHour(t.now, s.clock);
    assert TxnOk(s, t);
    assert t.todo[0] in t.todo;
    forall id | Locks(u.txns[k], id) ensures Locks(t, id) {
      if id !in t.todo {
        var i :| 0 <= i < |u.txns[k].pending| && u.txns[k].pending[i].task == id;
        assert t.pending[i].task == id;
      }
    }
    forall m | m in u.txns ensures TxnOk(u, u.txns[m]) {
      assert m != k ==> TxnOk(s, s.txns[m]);
    }
  }

  /** A commit appends claims of tasks that nobody else has locked. */
  lemma CommitKeeps(s: State, k: nat)
    requires Inv(s) && Enabled(s, Commit(k)) && s.txns[k].Selected?
    ensures Inv(Apply(s, Commit(k)))
  {
    var t, u := s.txns[k], Apply(s, Commit(k));
    assert TxnOk(s, t);
    var n := |s.claims|;
    forall i, j | 0 <= i < j < |u.claims| && u.claims[i].task == u.claims[j].task
      ensures HourStart(u.claims[i].at) < HourStart(u.claims[j].at)
    {
      if n <= j {
        assert u.claims[j] == t.pending[j - n];
      }
    }
    forall m | m in u.txns ensures TxnOk(u, u.txns[m]) {
      var v := s.txns[m];
      assert TxnOk(s, v);
      if v.Selected? {
        forall id, hour | Locks(v, id) && Unclaimed(s.claims, id, hour) ensures Unclaimed(u.claims, id, hour) {
          OthersClaims(s, k, m, id, hour);
        }
      }
    }
  }

  lemma OthersClaims(s: State, k: nat, m: nat, id: int, hour: int)
    requires LocksApart(s) && k in s.txns && m in s.txns && k != m && s.txns[k].Selected? && Locks(s.txns[m], id)
    requires Unclaimed(s.claims, id, hour)
    ensures Unclaimed(s.claims + s.txns[k].pending, id, hour)
  {
    var pending := s.txns[k].pending;
    forall i | 0 <= i < |pending| ensures pending[i].task != id {
      assert Locks(s.txns[k], pending[i].task);
    }
  }

  lemma StepKeeps(s: State, step: Step)
    requires Inv(s) && Enabled(s, step)
    ensures Inv(Apply(s, step))
  {
    match step
    case Select(k, ids) => SelectKeeps(s, k, ids);
    case Insert(k) => InsertKeeps(s, k);
    case Commit(k) =>
      if s.txns[k].Selected? {
        CommitKeeps(s, k);
      } else {
        assert s.claims + [] == s.claims;
        OthersKeep(s, Apply(s, step));
      }
    case _ => OthersKeep(s, Apply(s, step));
  }

  /** Nothing new is locked or claimed, and time does not go back. */
  lemma OthersKeep(s: State, u: State)
    requires Inv(s) && u.claims == s.claims && s.clock <= u.clock
    requires forall k ::
            k in u.txns ==> (k in s.txns && u.txns[k] == s.txns[k]) || (u.txns[k].Begun? && u.txns[k].now <= u.clock)
    ensures Inv(u)
  {
    forall k | k in u.txns ensures TxnOk(u, u.txns[k]) {
      assert k in s.txns ==> TxnOk(s, s.txns[k]);
    }
  }

  lemma {:induction false} RunKeeps(s: State, steps: seq<Step>)
    requires Inv(s) && Runs(s, steps)
    ensures Inv(Exec(s, steps))
    decreases steps
  {
    if steps != [] {
      StepKeeps(s, steps[0]);
      RunKeeps(Apply(s, steps[0]), steps[1..]);
    }
  }

  predicate Initial(s: State) { s.claims == [] && s.txns == map[] }

  /** Whatever the interleaving, a task has at most one claim in any clock hour. */
  lemma OneClaimPerTaskAndHour(s: State, steps: seq<Step>, i: nat, j: nat)
    requires Initial(s) && Runs(s, steps)
    requires i < |Exec(s, steps).claims| && j < |Exec(s, steps).claims|
    requires Exec(s, steps).claims[i].task == Exec(s, steps).claims[j].task
    requires HourStart(Exec(s, steps).claims[i].at) == HourStart(Exec(s, steps).claims[j].at)
    ensures i == j
  {
    RunKeeps(s, steps);
  }

  /** Two transactions at work never have the same task selected. */
  lemma WorkersApart(s: State, steps: seq<Step>, k: nat, m: nat, id: int)
    requires Initial(s) && Runs(s, steps)
    requires k in Exec(s, steps).txns && m in Exec(s, steps).txns
    requires Locks(Exec(s, steps).txns[k], id) && Locks(Exec(s, steps).txns[m], id)
    ensures k == m
  {
    RunKeeps(s, steps);
  }
}
