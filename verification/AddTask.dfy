/** Interleaved `AddTask` calls: looking the URL up, choosing a bucket, the insert under the
    unique key and the commit are separate steps of each call. */
module AddTask {
  import opened Options
  import opened Schedule
  import opened Buckets

  /** Where a call stands. A call that lost the race has rolled back and looks again. */
  datatype Call =
    | Started(url: string)
    | NotFound(url: string)
    | Chosen(url: string, bucket: int)
    | Inserted(url: string, id: int)
    | RolledBack(url: string)
    | Returned(url: string, id: int)
    | Raised(url: string)

  /** Committed rows by their key; an inserted row is pending until its call commits. */
  datatype State = State(clock: int, tasks: Tasks, calls: map<nat, Call>, pending: map<nat, Task>)

  datatype Step =
    | Tick(seconds: nat)
    | Start(call: nat, url: string)
    | Find(call: nat, row: Option<int>)
    | Choose(call: nat, bucket: int)
    | Insert(call: nat, id: int)
    | Fail(call: nat)
    | Commit(call: nat)
    | FindAgain(call: nat, row: Option<int>)
    | Crash(call: nat)
    | Update(id: int, task: Task)

  /** The row that `find_by_url` returns. */
  predicate Finds(tasks: Tasks, url: string, row: Option<int>) {
    match row
    case Some(id) => id in tasks && tasks[id].url == url
    case None => forall id :: id in tasks ==> tasks[id].url != url
  }

  predicate HasUrl(tasks: Tasks, url: string) { exists id :: id in tasks && tasks[id].url == url }

  predicate PendingUrl(s: State, url: string) { exists k :: k in s.pending && s.pending[k].url == url }

  predicate At(s: State, k: nat, c: Call) { k in s.calls && s.calls[k] == c }

  /** An insert waits while another call holds a pending row with its URL; then the unique
      key refuses it exactly if a committed row has the URL. */
  predicate Enabled(s: State, step: Step) {
    match step
    case Tick(_) => true
    case Start(k, _) => k !in s.calls
    case Find(k, row) => k in s.calls && s.calls[k].Started? && Finds(s.tasks, s.calls[k].url, row)
    case Choose(k, b) => k in s.calls && s.calls[k].NotFound? && 0 <= b < BUCKETS
    case Insert(k, id) =>
      && k in s.calls && s.calls[k].Chosen? && k !in s.pending
      && !PendingUrl(s, s.calls[k].url) && !HasUrl(s.tasks, s.calls[k].url)
      && id !in s.tasks && forall m ::
            m in s.calls && (s.calls[m].Inserted? || s.calls[m].Returned?) ==> s.calls[m].id != id
    case Fail(k) =>
      k in s.calls && s.calls[k].Chosen? && !PendingUrl(s, s.calls[k].url) && HasUrl(s.tasks, s.calls[k].url)
    case Commit(k) => k in s.calls && s.calls[k].Inserted? && k in s.pending
    case FindAgain(k, row) => k in s.calls && s.calls[k].RolledBack? && Finds(s.tasks, s.calls[k].url, row)
    case Crash(k) => k in s.calls && !s.calls[k].Returned? && !s.calls[k].Raised?
    case Update(id, task) => id in s.tasks && task.url == s.tasks[id].url
  }

  function Move(s: State, k: nat, c: Call): State { s.(calls := s.calls[k := c]) }

  function Apply(s: State, step: Step): State
    requires Enabled(s, step)
  {
    match step
    case Tick(d) => s.(clock := s.clock + d)
    case Start(k, url) => Move(s, k, Started(url))
    case Find(k, row) => Move(s, k, if row.Some? then Returned(s.calls[k].url, row.value) else NotFound(s.calls[k].url))
    case Choose(k, b) => Move(s, k, Chosen(s.calls[k].url, b))
    case Insert(k, id) =>
      var c := s.calls[k];
      Move(s, k, Inserted(c.url, id)).(pending := s.pending[k := NewTask(c.url, c.bucket, s.clock)])
    case Fail(k) => Move(s, k, RolledBack(s.calls[k].url))
    case Commit(k) =>
      var c := s.calls[k];
      Move(s, k, Returned(c.url, c.id)).(tasks := s.tasks[c.id := s.pending[k]], pending := s.pending - {k})
    case FindAgain(k, row) => Move(s, k,
        if row.Some? then Returned(s.calls[k].url, row.value) else Raised(s.calls[k].url))
    case Crash(k) => s.(calls := s.calls - {k}, pending := s.pending - {k})
    case Update(id, task) => s.(tasks := s.tasks[id := task])
  }

  predicate Runs(s: State, steps: seq<Step>)
    decreases steps
  {
    steps == [] || (Enabled(s, steps[0]) && Runs(Apply(s, steps[0]), steps[1..]))
  }

  function Exec(s: State, steps: seq<Step>): State
    requires Runs(s, steps)
    decreases steps
  {
    if steps == [] then s else Exec(Apply(s, steps[0]), steps[1..])
  }

  /** One committed row per URL. */
  ghost predicate UniqueUrls(tasks: Tasks) {
    forall i, j :: i in tasks && j in tasks && tasks[i].url == tasks[j].url ==> i == j
  }

  /** A pending row belongs to a call that inserted it, and nobody else has its URL or key. */
  ghost predicate PendingOk(s: State, k: nat) {
    && k in s.pending && k in s.calls && s.calls[k].Inserted? && s.calls[k].url == s.pending[k].url
    && !HasUrl(s.tasks, s.pending[k].url) && s.calls[k].id !in s.tasks
    && (forall m :: m in s.pending && s.pending[m].url == s.pending[k].url ==> m == k)
    && forall m :: m in s.calls && s.calls[m].Inserted? && s.calls[m].id == s.calls[k].id ==> m == k
  }

  ghost predicate CallOk(s: State, k: nat)
    requires k in s.calls
  {
    match s.calls[k]
    case Inserted(_, _) => k in s.pending
    case RolledBack(url) => HasUrl(s.tasks, url)
    case Returned(url, id) => id in s.tasks && s.tasks[id].url == url
    case Raised(_) => false
    case _ => true
  }

  ghost predicate Inv(s: State) {
    && UniqueUrls(s.tasks)
    && (forall k :: k in s.pending ==> PendingOk(s, k))
    && forall k :: k in s.calls ==> CallOk(s, k)
  }

  /** Committed rows are never taken away and never change their URL. */
  ghost predicate Grows(tasks: Tasks, later: Tasks) {
    forall id :: id in tasks ==> id in later && later[id].url == tasks[id].url
  }

  lemma CallsKeep(s: State, t: State, k: nat)
    requires k in s.calls && k in t.calls && CallOk(s, k) && t.calls[k] == s.calls[k] && Grows(s.tasks, t.tasks)
    requires k in s.pending ==> k in t.pending
    ensures CallOk(t, k)
  {
    if s.calls[k].RolledBack? {
      var id :| id in s.tasks && s.tasks[id].url == s.calls[k].url;
      assert id in t.tasks;
    }
  }

  lemma InsertKeeps(s: State, k: nat, id: int)
    requires Inv(s) && Enabled(s, Insert(k, id))
    ensures Inv(Apply(s, Insert(k, id)))
  {
    var t := Apply(s, Insert(k, id));
    forall m | m in t.pending ensures PendingOk(t, m) {
      if m != k {
        assert PendingOk(s, m) && CallOk(s, m);
      }
    }
    forall m | m in t.calls ensures CallOk(t, m) {
      if m != k {
        CallsKeep(s, t, m);
      }
    }
  }

  lemma CommitKeeps(s: State, k: nat)
    requires Inv(s) && Enabled(s, Commit(k))
    ensures Inv(Apply(s, Commit(k)))
  {
    var t := Apply(s, Commit(k));
    assert PendingOk(s, k);
    forall m | m in t.pending ensures PendingOk(t, m) {
      assert PendingOk(s, m) && m != k;
    }
    forall m | m in t.calls ensures CallOk(t, m) {
      if m != k {
        assert CallOk(s, m);
        CallsKeep(s, t, m);
      }
    }
  }

  /** Steps of one call that touch no row. */
  lemma MoveKeeps(s: State, k: nat, c: Call)
    requires Inv(s) && k !in s.pending && !c.Inserted?
    requires k in s.calls ==> !s.calls[k].Inserted?
    requires CallOk(Move(s, k, c), k)
    ensures Inv(Move(s, k, c))
  {
    var t := Move(s, k, c);
    forall m | m in t.pending ensures PendingOk(t, m) {
      assert PendingOk(s, m);
    }
    forall m | m in t.calls ensures CallOk(t, m) {
      if m != k {
        CallsKeep(s, t, m);
      }
    }
  }

  lemma StepKeeps(s: State, step: Step)
    requires Inv(s) && Enabled(s, step)
    ensures Inv(Apply(s, step))
  {
    match step
    case Tick(_) => SameRowsKeep(s, Apply(s, step));
    case Update(id, task) => UpdateKeeps(s, id, task);
    case Insert(k, id) => InsertKeeps(s, k, id);
    case Commit(k) => CommitKeeps(s, k);
    case Crash(k) => SameRowsKeep(s, Apply(s, step));
    case _ =>
      var k := step.call;
      assert k in s.pending ==> PendingOk(s, k);
      MoveKeeps(s, k, Apply(s, step).calls[k]);
  }

  lemma SameRowsKeep(s: State, t: State)
    requires Inv(s) && t.tasks == s.tasks
    requires forall k :: k in t.calls ==>
            k in s.calls && t.calls[k] == s.calls[k] && (k in s.pending <==> k in t.pending)
    requires forall k :: k in t.pending ==> k in s.pending && t.pending[k] == s.pending[k] && k in t.calls
    ensures Inv(t)
  {
    forall m | m in t.pending ensures PendingOk(t, m) {
      assert PendingOk(s, m);
    }
    forall m | m in t.calls ensures CallOk(t, m) {
      assert CallOk(s, m);
    }
  }

  lemma UpdateKeeps(s: State, id: int, task: Task)
    requires Inv(s) && Enabled(s, Update(id, task))
    ensures Inv(Apply(s, Update(id, task)))
  {
    var t := Apply(s, Update(id, task));
    forall m | m in t.pending ensures PendingOk(t, m) {
      assert PendingOk(s, m);
      forall i | i in t.tasks ensures t.tasks[i].url != t.pending[m].url {
        assert t.tasks[i].url == s.tasks[i].url;
      }
    }
    forall m | m in t.calls ensures CallOk(t, m) {
      CallsKeep(s, t, m);
    }
  }

  lemma {:induction false} RunKeeps(s: State, steps: seq<Step>)
    requires Inv(s) && Runs(s, steps)
    ensures Inv(Exec(s, steps))
    decreases steps
  {
    if steps != [] {
      StepKeeps(s, steps[0]);
      RunKeeps(Apply(s, steps[0]), steps[1..]);
    }
  }

  /** Tables whose URLs are unique, and no call on its way. */
  ghost predicate Initial(s: State) { UniqueUrls(s.tasks) && s.calls == map[] && s.pending == map[] }

  /** In every interleaving: one task per URL, every call that returns names the task of its
      URL, and a call that lost the race never raises. */
  lemma CallsAgree(s: State, steps: seq<Step>, k: nat, m: nat)
    requires Initial(s) && Runs(s, steps)
    ensures var t := Exec(s, steps);
            && UniqueUrls(t.tasks)
            && (k in t.calls ==> !t.calls[k].Raised?)
            && (k in t.calls && t.calls[k].Returned? ==>
                  t.calls[k].id in t.tasks && t.tasks[t.calls[k].id].url == t.calls[k].url)
            && (k in t.calls && m in t.calls && t.calls[k].Returned? && t.calls[m].Returned?
                && t.calls[k].url == t.calls[m].url ==>
                  t.calls[k].id == t.calls[m].id)
  {
    RunKeeps(s, steps);
    var t := Exec(s, steps);
    assert k in t.calls ==> CallOk(t, k);
    assert m in t.calls ==> CallOk(t, m);
  }

  // ---------- One call ----------

  class ParsingTasks {
    var tasks: Tasks

    method FindByUrl(url: string) returns (row: Option<int>)
      ensures Finds(tasks, url, row)
    {
      if id :| id in tasks && tasks[id].url == url {
        row := Some(id);
      } else {
        row := None;
      }
    }

    /** `AddTask.__call__` for a cleaned URL. `rivals` is what other calls commit between the
        lookup and the insert, `items` the loads as the query returns them, `id` a new key.
        The insert fails exactly when a rival has taken the URL, and then the rival's task is
        returned; in every case the answer is the one task of this URL, with its next run. */
    method AddTask(url: string, now: int, items: seq<(int, nat)>, rivals: Tasks, id: int)
        returns (r: (int, Option<int>))
      requires UniqueUrls(tasks) && LoadingOf(tasks, items)
      requires Grows(tasks, rivals) && UniqueUrls(rivals) && id !in rivals
      modifies this
      ensures UniqueUrls(tasks) && r.0 in tasks && tasks[r.0].url == url && r.1 == NextRun(tasks[r.0], now)
      ensures HasUrl(old(tasks), url) ==> tasks == old(tasks)
      ensures !HasUrl(old(tasks), url) && HasUrl(rivals, url) ==> tasks == rivals
      ensures !HasUrl(rivals, url) ==>
        && r.0 == id && LeastLoaded(old(tasks), tasks[id].bucket)
        && tasks == rivals[id := tasks[id]] && tasks == rivals[id := NewTask(url, tasks[id].bucket, now)]
        && tasks[id].createdAt == now && tasks[id].lastParsedAt == None
      ensures !HasUrl(rivals, url) ==> DueFromNextHour(tasks[id], id, now)
    {
      hide DueFromNextHour;
      var existing := FindByUrl(url);
      if existing.Some? {
        assert existing.value in rivals && rivals[existing.value].url == url;
        return (existing.value, NextRun(tasks[existing.value], now));
      }
      var bucket := SelectBucket(items, tasks);
      tasks := rivals;
      var taken := exists k :: k in tasks && tasks[k].url == url;
      if !taken {
        tasks := tasks[id := NewTask(url, bucket, now)];
        NewTaskIsDue(tasks[id], id);
        return (id, NextRun(tasks[id], now));
      }
      existing := FindByUrl(url);
      r := (existing.value, NextRun(tasks[existing.value], now));
    }
  }
}
