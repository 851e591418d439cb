/** The lease on a Telegram account: workers on many hosts share accounts through an
    append-only usage log. One transition system over all of them; every step is one
    database transaction, one event of a worker, or the passing of time. */
module Lease {
  import opened Clock
  import opened Options

  /** A worker stops this long before its lease runs out (`account_lock_hours - 0.5`). */
  const MARGIN := 1800

  datatype Reason = Usage | UsageCompleted | Flood

  datatype Row = Row(account: int, worker: nat, lockedUntil: int, createdAt: int, reason: Reason)

  datatype Client = Client(banned: bool, hasSession: bool)

  datatype Outcome = Success | FloodWait(seconds: nat) | ClientBanned

  /** Where a worker stands inside `get_client`. A leaving worker has disconnected, or is
      about to, and has not yet committed the transaction that its exit path ends with. */
  datatype Phase =
    | Idle
    | Connecting(account: int, acquired: int)
    | Working(account: int, acquired: int, started: int, iteration: int)
    | Leaving(account: int, acquired: int, outcome: Outcome, since: int)

  datatype State = State(clock: int, clients: map<int, Client>, log: seq<Row>, workers: map<nat, Phase>)

  /** Lock hours from the settings; how long connecting, one loop iteration and an exit path
      may take; whether the log's time stamps tell the rows of an account apart. */
  datatype Config = Config(lockHours: nat, connectMax: nat, iterationMax: nat, exitMax: nat, distinctStamps: bool)
  {
    function Lock(): int { HOUR * lockHours }

    function MaxSession(): int { HOUR * lockHours - MARGIN }
  }

  datatype Step =
    | Tick(seconds: nat)
    | NewClient(client: int, hasSession: bool)
    | SetSession(client: int, hasSession: bool)
    | Acquire(w: nat, account: int)
    | Connected(w: nat)
    | NextIteration(w: nat)
    | RaiseFlood(w: nat, seconds: nat)
    | RaiseBan(w: nat)
    | Finish(w: nat)
    | Crash(w: nat)

  function PhaseOf(s: State, w: nat): Phase { if w in s.workers then s.workers[w] else Idle }

  predicate Holds(s: State, w: nat, account: int) { !PhaseOf(s, w).Idle? && PhaseOf(s, w).account == account }

  // ---------- The availability query ----------

  /** Row `i` may come first when the account's rows are ordered by `created_at` alone. */
  predicate Newest(log: seq<Row>, account: int, i: nat) {
    && i < |log| && log[i].account == account
    && forall j :: 0 <= j < |log| && log[j].account == account ==> log[j].createdAt <= log[i].createdAt
  }

  predicate Unlocked(s: State, account: int) {
    || (forall i :: 0 <= i < |s.log| ==> s.log[i].account != account)
    || exists i :: 0 <= i < |s.log| && Newest(s.log, account, i) && s.log[i].lockedUntil <= s.clock
  }

  /** `find_available_account` may return this account. */
  predicate Available(s: State, account: int) {
    && account in s.clients && !s.clients[account].banned && s.clients[account].hasSession
    && Unlocked(s, account)
  }

  predicate StampFree(l: Config, s: State, account: int) {
    l.distinctStamps ==> forall i :: 0 <= i < |s.log| && s.log[i].account == account ==> s.log[i].createdAt != s.clock
  }

  // ---------- Steps ----------

  function Deadline(l: Config, p: Phase): int
    requires !p.Idle?
  {
    match p
    case Connecting(_, acquired) => acquired + l.connectMax
    case Working(_, _, _, iteration) => iteration + l.iterationMax
    case Leaving(_, _, _, since) => since + l.exitMax
  }

  predicate Active(p: Phase) { p.Connecting? || p.Working? }

  predicate Enabled(l: Config, s: State, step: Step) {
    match step
    case Tick(d) => forall w :: w in s.workers && !s.workers[w].Idle? ==> s.clock + d <= Deadline(l, s.workers[w])
    case NewClient(a, _) => a !in s.clients
    case SetSession(a, _) => a in s.clients
    case Acquire(w, a) => PhaseOf(s, w).Idle? && Available(s, a) && StampFree(l, s, a)
    case Connected(w) => PhaseOf(s, w).Connecting?
    case NextIteration(w) => PhaseOf(s, w).Working?
    case RaiseFlood(w, _) => Active(PhaseOf(s, w))
    case RaiseBan(w) => Active(PhaseOf(s, w))
    case Finish(w) =>
      PhaseOf(s, w).Leaving? && (PhaseOf(s, w).outcome.ClientBanned? || StampFree(l, s, PhaseOf(s, w).account))
    case Crash(w) => !PhaseOf(s, w).Idle?
  }

  function Enter(s: State, w: nat, p: Phase): State { s.(workers := s.workers[w := p]) }

  function Append(s: State, row: Row): State { s.(log := s.log + [row]) }

  function Leave(s: State, w: nat, outcome: Outcome): State
    requires !PhaseOf(s, w).Idle?
  {
    Enter(s, w, Leaving(PhaseOf(s, w).account, PhaseOf(s, w).acquired, outcome, s.clock))
  }

  /** The usage row, and the worker that wrote it. */
  function Taken(l: Config, s: State, w: nat, account: int): State {
    Enter(Append(s, Row(account, w, s.clock + l.Lock(), s.clock, Usage)), w, Connecting(account, s.clock))
  }

  /** The top of the worker's loop: past the session limit it leaves, else it goes on. */
  function BeginIteration(l: Config, s: State, w: nat, account: int, acquired: int, started: int): State {
    Enter(s, w, if s.clock - started > l.MaxSession() then Leaving(account, acquired, Success, s.clock)
                else Working(account, acquired, started, s.clock))
  }

  /** What each exit path commits: a release row, a penalty row, or the ban and no row. */
  function Commit(s: State, w: nat, account: int, outcome: Outcome): State {
    match outcome
    case Success => Append(s, Row(account, w, s.clock, s.clock, UsageCompleted))
    case FloodWait(seconds) => Append(s, Row(account, w, s.clock + seconds + 10, s.clock, Flood))
    case ClientBanned =>
      if account in s.clients then s.(clients := s.clients[account := s.clients[account].(banned := true)]) else s
  }

  function Committed(s: State, w: nat): State
    requires PhaseOf(s, w).Leaving?
  {
    Enter(Commit(s, w, PhaseOf(s, w).account, PhaseOf(s, w).outcome), w, Idle)
  }

  function Apply(l: Config, s: State, step: Step): State
    requires Enabled(l, s, step)
  {
    match step
    case Tick(d) => s.(clock := s.clock + d)
    case NewClient(a, has) => s.(clients := s.clients[a := Client(false, has)])
    case SetSession(a, has) => s.(clients := s.clients[a := s.clients[a].(hasSession := has)])
    case Acquire(w, a) => Taken(l, s, w, a)
    case Connected(w) => BeginIteration(l, s, w, PhaseOf(s, w).account, PhaseOf(s, w).acquired, s.clock)
    case NextIteration(w) => BeginIteration(l, s, w, PhaseOf(s, w).account, PhaseOf(s, w).acquired,
        PhaseOf(s, w).started)
    case RaiseFlood(w, seconds) => Leave(s, w, FloodWait(seconds))
    case RaiseBan(w) => Leave(s, w, ClientBanned)
    case Finish(w) => Committed(s, w)
    case Crash(w) => Enter(s, w, Idle)
  }

  predicate Runs(l: Config, s: State, steps: seq<Step>)
    decreases steps
  {
    steps == [] || (Enabled(l, s, steps[0]) && Runs(l, Apply(l, s, steps[0]), steps[1..]))
  }

  function Exec(l: Config, s: State, steps: seq<Step>): State
    requires Runs(l, s, steps)
    decreases steps
  {
    if steps == [] then s else Exec(l, Apply(l, s, steps[0]), steps[1..])
  }

  /** Any clients, an empty log, nobody at work. */
  predicate Initial(s: State) { s.log == [] && s.workers == map[] }

  ghost predicate Exclusive(s: State) {
    forall v, w, a :: Holds(s, v, a) && Holds(s, w, a) ==> v == w
  }

  lemma {:induction false} RunsConcat(l: Config, s: State, first: seq<Step>, second: seq<Step>)
    requires Runs(l, s, first) && Runs(l, Exec(l, s, first), second)
    ensures Runs(l, s, first + second) && Exec(l, s, first + second) == Exec(l, Exec(l, s, first), second)
    decreases first
  {
    if first == [] {
      assert first + second == second;
    } else {
      assert (first + second)[0] == first[0] && (first + second)[1..] == first[1..] + second;
      RunsConcat(l, Apply(l, s, first[0]), first[1..], second);
    }
  }

  // ---------- The invariant ----------

  /** The account's last row in the order of insertion. */
  function Top(log: seq<Row>, account: int): Option<Row> {
    if log == [] then None
    else if log[|log| - 1].account == account then Some(log[|log| - 1])
    else Top(log[..|log| - 1], account)
  }

  lemma TopAppended(log: seq<Row>, row: Row, account: int)
    ensures Top(log + [row], account) == if row.account == account then Some(row) else Top(log, account)
  {
    assert (log + [row])[..|log|] == log;
  }

  ghost predicate Ordered(s: State) {
    && (forall i :: 0 <= i < |s.log| ==> s.log[i].createdAt <= s.clock)
    && Increasing(s.log)
  }

  ghost predicate Increasing(log: seq<Row>) {
    forall i, j :: 0 <= i < j < |log| && log[i].account == log[j].account ==> log[i].createdAt < log[j].createdAt
  }

  lemma {:induction false} TopIsRow(log: seq<Row>, account: int)
    ensures Top(log, account).None? ==> forall i :: 0 <= i < |log| ==> log[i].account != account
    ensures Top(log, account).Some? ==>
      exists i :: 0 <= i < |log| && log[i] == Top(log, account).value && log[i].account == account
                  && forall j :: i < j < |log| ==> log[j].account != account
  {
    if log != [] {
      var n := |log| - 1;
      if log[n].account != account {
        TopIsRow(log[..n], account);
      }
    }
  }

  /** With distinct stamps, only one row can come first in the query's order. */
  lemma TopIsNewest(log: seq<Row>, account: int, i: nat)
    requires Increasing(log) && i < |log|
    ensures Newest(log, account, i) <==> Top(log, account) == Some(log[i]) && log[i].account == account
  {
    TopIsRow(log, account);
    if Top(log, account).Some? {
      var k :| 0 <= k < |log| && log[k] == Top(log, account).value && log[k].account == account
               && forall j :: k < j < |log| ==> log[j].account != account;
      assert forall j :: 0 <= j < |log| && log[j].account == account && j != k ==> log[j].createdAt < log[k].createdAt;
    }
  }

  /** With distinct stamps the query decides by the last row inserted. */
  lemma UnlockedByTop(s: State, account: int)
    requires Ordered(s)
    ensures Unlocked(s, account) <==> Top(s.log, account).None? || Top(s.log, account).value.lockedUntil <= s.clock
  {
    TopIsRow(s.log, account);
    forall i: nat | i < |s.log|
      ensures Newest(s.log, account, i) <==> Top(s.log, account) == Some(s.log[i]) && s.log[i].account == account
    {
      TopIsNewest(s.log, account, i);
    }
  }

  /** A holder is within its time budget, its usage row is the newest of its account, and
      that account is not banned. */
  predicate HolderOk(l: Config, s: State, w: nat, p: Phase)
    requires !p.Idle?
  {
    && Top(s.log, p.account) == Some(Row(p.account, w, p.acquired + l.Lock(), p.acquired, Usage))
    && p.account in s.clients && !s.clients[p.account].banned
    && s.clock <= Deadline(l, p)
    && match p
       case Connecting(_, acquired) => acquired <= s.clock
       case Working(_, acquired, started, iteration) =>
         acquired <= started <= acquired + l.connectMax && started <= iteration <= s.clock
             && iteration - started <= l.MaxSession()
       case Leaving(_, acquired, _, since) =>
         acquired <= since <= s.clock && since <= acquired + l.connectMax + l.MaxSession() + l.iterationMax
  }

  ghost predicate Inv(l: Config, s: State) {
    Ordered(s) && forall w :: w in s.workers && !s.workers[w].Idle? ==> HolderOk(l, s, w, s.workers[w])
  }

  /** Connecting, the last iteration and the exit path fit strictly into the margin. */
  predicate Budget(l: Config) { l.connectMax + l.iterationMax + l.exitMax < MARGIN }

  /** The lease outlives the hold. */
  lemma StillLocked(l: Config, s: State, w: nat)
    requires Inv(l, s) && Budget(l) && l.lockHours >= 1 && !PhaseOf(s, w).Idle?
    ensures s.clock < PhaseOf(s, w).acquired + l.Lock()
    ensures !Unlocked(s, PhaseOf(s, w).account)
  {
    UnlockedByTop(s, PhaseOf(s, w).account);
  }

  lemma InvExclusive(l: Config, s: State)
    requires Inv(l, s)
    ensures Exclusive(s)
  {
    forall v, w, a | Holds(s, v, a) && Holds(s, w, a) ensures v == w {
      assert HolderOk(l, s, v, s.workers[v]) && HolderOk(l, s, w, s.workers[w]);
    }
  }

  lemma AppendKeepsOrder(l: Config, s: State, row: Row)
    requires Ordered(s) && row.createdAt == s.clock && l.distinctStamps && StampFree(l, s, row.account)
    ensures Ordered(Append(s, row))
  {
  }

  /** A row for an account nobody else holds leaves every other holder's newest row. */
  lemma AppendKeepsOthers(l: Config, s: State, row: Row, w: nat)
    requires Inv(l, s) && forall v :: Holds(s, v, row.account) ==> v == w
    ensures forall v :: v in s.workers && !s.workers[v].Idle? && v != w ==> HolderOk(l, Append(s, row), v, s.workers[v])
  {
    forall v | v in s.workers && !s.workers[v].Idle? && v != w ensures HolderOk(l, Append(s, row), v, s.workers[v]) {
      assert HolderOk(l, s, v, s.workers[v]) && (Holds(s, v, row.account) ==> v == w);
      TopAppended(s.log, row, s.workers[v].account);
    }
  }

  lemma AcquireKeeps(l: Config, s: State, w: nat, a: int)
    requires Inv(l, s) && Budget(l) && l.lockHours >= 1 && l.distinctStamps && Enabled(l, s, Acquire(w, a))
    ensures Inv(l, Apply(l, s, Acquire(w, a)))
  {
    var row := Row(a, w, s.clock + l.Lock(), s.clock, Usage);
    forall v | Holds(s, v, a) ensures v == w {
      StillLocked(l, s, v);
    }
    AppendKeepsOrder(l, s, row);
    AppendKeepsOthers(l, s, row, w);
    TopAppended(s.log, row, a);
  }

  lemma FinishKeeps(l: Config, s: State, w: nat)
    requires Inv(l, s) && l.distinctStamps && Enabled(l, s, Finish(w))
    ensures Inv(l, Apply(l, s, Finish(w)))
  {
    var p := PhaseOf(s, w);
    InvExclusive(l, s);
    assert Holds(s, w, p.account);
    var committed := Commit(s, w, p.account, p.outcome);
    if p.outcome.ClientBanned? {
      forall v | v in s.workers && !s.workers[v].Idle? && v != w ensures s.workers[v].account != p.account {
        assert Holds(s, v, s.workers[v].account);
      }
    } else {
      var row := committed.log[|s.log|];
      assert committed == Append(s, row);
      AppendKeepsOrder(l, s, row);
      AppendKeepsOthers(l, s, row, w);
    }
  }

  lemma StepKeeps(l: Config, s: State, step: Step)
    requires Inv(l, s) && Budget(l) && l.lockHours >= 1 && l.distinctStamps && Enabled(l, s, step)
    ensures Inv(l, Apply(l, s, step))
  {
    match step
    case Acquire(w, a) => AcquireKeeps(l, s, w, a);
    case Finish(w) => FinishKeeps(l, s, w);
    case _ =>
  }

  lemma {:induction false} RunKeeps(l: Config, s: State, steps: seq<Step>)
    requires Inv(l, s) && Budget(l) && l.lockHours >= 1 && l.distinctStamps && Runs(l, s, steps)
    ensures Inv(l, Exec(l, s, steps))
    decreases steps
  {
    if steps != [] {
      StepKeeps(l, s, steps[0]);
      RunKeeps(l, Apply(l, s, steps[0]), steps[1..]);
    }
  }

  /** In every run, no account has two holders, each holder's usage row is the newest of its
      account, and the hold ends before that row's `locked_until`. */
  lemma HoldersAreAlone(l: Config, s: State, steps: seq<Step>)
    requires Initial(s) && Budget(l) && l.lockHours >= 1 && l.distinctStamps && Runs(l, s, steps)
    ensures var t := Exec(l, s, steps);
            && Exclusive(t)
            && forall w :: !PhaseOf(t, w).Idle? ==>
                 && Top(t.log, PhaseOf(t, w).account).Some?
                 && Top(t.log, PhaseOf(t, w).account).value.worker == w
                 && Top(t.log, PhaseOf(t, w).account).value.reason == Usage
                 && t.clock < Top(t.log, PhaseOf(t, w).account).value.lockedUntil
  {
    RunKeeps(l, s, steps);
    var t := Exec(l, s, steps);
    InvExclusive(l, t);
    forall w | !PhaseOf(t, w).Idle? ensures t.clock < PhaseOf(t, w).acquired + l.Lock() {
      StillLocked(l, t, w);
    }
  }

  // ---------- When the lease fails ----------

  lemma RunThen(l: Config, s: State, steps: seq<Step>, step: Step)
    requires Runs(l, s, steps) && Enabled(l, Exec(l, s, steps), step)
    ensures Runs(l, s, steps + [step]) && Exec(l, s, steps + [step]) == Apply(l, Exec(l, s, steps), step)
  {
    var t := Exec(l, s, steps);
    assert [step][1..] == [];
    assert Exec(l, Apply(l, t, step), []) == Apply(l, t, step);
    RunsConcat(l, s, steps, [step]);
  }

  /** One client, nobody at work. */
  function Alone(): State { State(0, map[7 := Client(false, true)], [], map[]) }

  /** Worker 0 acquired at time 0, took all its time to connect, and begins an iteration. */
  function AtWork(l: Config, clock: int): State {
    State(clock, map[7 := Client(false, true)], [Row(7, 0, l.Lock(), 0, Usage)],
        map[0 := Working(7, 0, l.connectMax, clock)])
  }

  /** One-second iterations. */
  function Seconds(n: nat): seq<Step> { if n == 0 then [] else Seconds(n - 1) + [Tick(1), NextIteration(0)] }

  function UntilLimit(l: Config): seq<Step>
    requires l.lockHours >= 1
  {
    [Acquire(0, 7), Tick(l.connectMax), Connected(0)] + Seconds(l.MaxSession())
  }

  lemma ConnectsLate(l: Config)
    requires l.lockHours >= 1
    ensures var steps := [Acquire(0, 7), Tick(l.connectMax), Connected(0)];
            Runs(l, Alone(), steps) && Exec(l, Alone(), steps) == AtWork(l, l.connectMax)
  {
    RunThen(l, Alone(), [], Acquire(0, 7));
    assert [] + [Acquire(0, 7)] == [Acquire(0, 7)];
    RunThen(l, Alone(), [Acquire(0, 7)], Tick(l.connectMax));
    assert [Acquire(0, 7)] + [Tick(l.connectMax)] == [Acquire(0, 7), Tick(l.connectMax)];
    RunThen(l, Alone(), [Acquire(0, 7), Tick(l.connectMax)], Connected(0));
    assert [Acquire(0, 7), Tick(l.connectMax)] + [Connected(0)] == [Acquire(0, 7), Tick(l.connectMax), Connected(0)];
    assert Exec(l, Alone(), [Acquire(0, 7), Tick(l.connectMax), Connected(0)]).workers
      == AtWork(l, l.connectMax).workers;
  }

  lemma {:induction false} SecondsRun(l: Config, n: nat)
    requires l.iterationMax >= 1 && n <= l.MaxSession()
    ensures Runs(l, AtWork(l, l.connectMax), Seconds(n))
    ensures Exec(l, AtWork(l, l.connectMax), Seconds(n)) == AtWork(l, l.connectMax + n)
  {
    if n > 0 {
      SecondsRun(l, n - 1);
      var s := AtWork(l, l.connectMax);
      RunThen(l, s, Seconds(n - 1), Tick(1));
      var t := Exec(l, s, Seconds(n - 1) + [Tick(1)]);
      RunThen(l, s, Seconds(n - 1) + [Tick(1)], NextIteration(0));
      assert Apply(l, t, NextIteration(0)).workers == AtWork(l, l.connectMax + n).workers;
      assert Seconds(n - 1) + [Tick(1)] + [NextIteration(0)] == Seconds(n);
    }
  }

  lemma LimitReached(l: Config)
    requires l.lockHours >= 1 && l.iterationMax >= 1
    ensures Runs(l, Alone(), UntilLimit(l))
    ensures Exec(l, Alone(), UntilLimit(l)) == AtWork(l, l.connectMax + l.MaxSession())
  {
    ConnectsLate(l);
    SecondsRun(l, l.MaxSession());
    RunsConcat(l, Alone(), [Acquire(0, 7), Tick(l.connectMax), Connected(0)], Seconds(l.MaxSession()));
  }

  /** A last iteration begun exactly at the limit, then the slowest exit. */
  function SlowRun(l: Config): seq<Step>
    requires l.lockHours >= 1
  {
    UntilLimit(l) + [Tick(l.iterationMax)] + [NextIteration(0)] + [Tick(l.exitMax)] + [Acquire(1, 7)]
  }

  /** Without the strict budget the account is available again while still held: at exactly
      thirty minutes already. */
  lemma SlowRunBreaks(l: Config)
    requires l.lockHours >= 1 && l.iterationMax >= 1 && !Budget(l)
    ensures Runs(l, Alone(), SlowRun(l)) && !Exclusive(Exec(l, Alone(), SlowRun(l)))
  {
    LimitReached(l);
    var steps := UntilLimit(l);
    RunThen(l, Alone(), steps, Tick(l.iterationMax));
    RunThen(l, Alone(), steps + [Tick(l.iterationMax)], NextIteration(0));
    var late := steps + [Tick(l.iterationMax)] + [NextIteration(0)];
    RunThen(l, Alone(), late, Tick(l.exitMax));
    var t := Exec(l, Alone(), late + [Tick(l.exitMax)]);
    assert Newest(t.log, 7, 0);
    RunThen(l, Alone(), late + [Tick(l.exitMax)], Acquire(1, 7));
    var u := Exec(l, Alone(), SlowRun(l));
    assert Holds(u, 0, 7) && Holds(u, 1, 7);
  }

  /** A release and two acquisitions within one second. */
  function TiedRun(l: Config): seq<Step>
    requires l.lockHours >= 1
  {
    UntilLimit(l) + [Tick(1)] + [NextIteration(0)] + [Finish(0)] + [Acquire(1, 7)] + [Acquire(2, 7)]
  }

  /** With equal stamps the release row still answers the query after the next lease. */
  lemma TiedRunBreaks(l: Config)
    requires l.lockHours >= 1 && l.iterationMax >= 1 && !l.distinctStamps
    ensures Runs(l, Alone(), TiedRun(l)) && !Exclusive(Exec(l, Alone(), TiedRun(l)))
  {
    LimitReached(l);
    var limit := UntilLimit(l);
    RunThen(l, Alone(), limit, Tick(1));
    RunThen(l, Alone(), limit + [Tick(1)], NextIteration(0));
    var left := limit + [Tick(1)] + [NextIteration(0)];
    RunThen(l, Alone(), left, Finish(0));
    var free := Exec(l, Alone(), left + [Finish(0)]);
    assert Newest(free.log, 7, 1);
    RunThen(l, Alone(), left + [Finish(0)], Acquire(1, 7));
    var taken := Exec(l, Alone(), left + [Finish(0)] + [Acquire(1, 7)]);
    assert Newest(taken.log, 7, 1);
    RunThen(l, Alone(), left + [Finish(0)] + [Acquire(1, 7)], Acquire(2, 7));
    var u := Exec(l, Alone(), TiedRun(l));
    assert Holds(u, 1, 7) && Holds(u, 2, 7);
  }

  ghost predicate AlwaysExclusive(l: Config) {
    forall s, steps :: Initial(s) && Runs(l, s, steps) ==> Exclusive(Exec(l, s, steps))
  }

  /** The lease protects an account in every run exactly when the stamps are distinct and
      connecting, the last iteration and the exit together take less than the margin. */
  lemma LeaseIsSafeIff(l: Config)
    requires l.lockHours >= 1 && l.iterationMax >= 1
    ensures AlwaysExclusive(l) <==> l.distinctStamps && Budget(l)
  {
    if l.distinctStamps && Budget(l) {
      forall s, steps | Initial(s) && Runs(l, s, steps) ensures Exclusive(Exec(l, s, steps)) {
        HoldersAreAlone(l, s, steps);
      }
    } else if l.distinctStamps {
      SlowRunBreaks(l);
    } else {
      TiedRunBreaks(l);
    }
  }

  // ---------- Bans and flood waits ----------

  /** Banned, or about to be by worker `w`. */
  predicate Condemned(s: State, account: int, w: nat) {
    || (account in s.clients && s.clients[account].banned)
    || (PhaseOf(s, w).Leaving? && PhaseOf(s, w).account == account && PhaseOf(s, w).outcome.ClientBanned?)
  }

  lemma CondemnedStays(l: Config, s: State, step: Step, account: int, w: nat)
    requires Inv(l, s) && Budget(l) && l.lockHours >= 1 && Enabled(l, s, step)
    requires Condemned(s, account, w) && step != Crash(w)
    ensures Condemned(Apply(l, s, step), account, w)
    ensures !(step.Acquire? && step.account == account)
  {
    if !(account in s.clients && s.clients[account].banned) {
      StillLocked(l, s, w);
    }
  }

  predicate HandsOut(steps: seq<Step>, account: int) {
    exists i :: 0 <= i < |steps| && steps[i].Acquire? && steps[i].account == account
  }

  /** A ban that has committed is never taken back. */
  lemma {:induction false} BannedStays(l: Config, s: State, steps: seq<Step>, account: int)
    requires Runs(l, s, steps) && account in s.clients && s.clients[account].banned
    ensures !HandsOut(steps, account)
    ensures account in Exec(l, s, steps).clients && Exec(l, s, steps).clients[account].banned
    decreases steps
  {
    if steps != [] {
      BannedStays(l, Apply(l, s, steps[0]), steps[1..], account);
      NotHandedOutFirst(steps, account);
    }
  }

  lemma NotHandedOutFirst(steps: seq<Step>, account: int)
    requires steps != []
    ensures HandsOut(steps, account)
            <==> (steps[0].Acquire? && steps[0].account == account) || HandsOut(steps[1..], account)
  {
    if HandsOut(steps[1..], account) {
      var i :| 0 <= i < |steps| - 1 && steps[1..][i].Acquire? && steps[1..][i].account == account;
      assert steps[i + 1].Acquire? && steps[i + 1].account == account;
    }
    forall i | 0 < i < |steps| ensures steps[i] == steps[1..][i - 1] {
    }
  }

  /** If the worker crashes at all, it has committed its exit before. */
  predicate CommitsFirst(steps: seq<Step>, w: nat) {
    forall i :: 0 <= i < |steps| && steps[i] == Crash(w) ==> Finish(w) in steps[..i]
  }

  lemma CommitStillFirst(steps: seq<Step>, w: nat)
    requires steps != [] && steps[0] != Finish(w) && CommitsFirst(steps, w)
    ensures steps[0] != Crash(w) && CommitsFirst(steps[1..], w)
  {
    assert steps[..0] == [];
    forall i | 0 <= i < |steps| - 1 && steps[1..][i] == Crash(w) ensures Finish(w) in steps[1..][..i] {
      assert steps[i + 1] == Crash(w);
      assert steps[..i + 1] == [steps[0]] + steps[1..][..i];
    }
  }

  lemma {:induction false} CondemnedIsKept(l: Config, s: State, steps: seq<Step>, account: int, w: nat)
    requires Inv(l, s) && Budget(l) && l.lockHours >= 1 && l.distinctStamps && Runs(l, s, steps)
    requires Condemned(s, account, w) && CommitsFirst(steps, w)
    ensures !HandsOut(steps, account)
    decreases steps
  {
    if account in s.clients && s.clients[account].banned {
      BannedStays(l, s, steps, account);
    } else if steps != [] {
      var t := Apply(l, s, steps[0]);
      if steps[0] == Finish(w) {
        assert HolderOk(l, s, w, s.workers[w]);
        BannedStays(l, t, steps[1..], account);
      } else {
        CommitStillFirst(steps, w);
        CondemnedStays(l, s, steps[0], account, w);
        StepKeeps(l, s, steps[0]);
        CondemnedIsKept(l, t, steps[1..], account, w);
      }
      CondemnedIsLocked(l, s, account, w);
      NotHandedOutFirst(steps, account);
    }
  }

  lemma CondemnedIsLocked(l: Config, s: State, account: int, w: nat)
    requires Inv(l, s) && Budget(l) && l.lockHours >= 1 && Condemned(s, account, w)
    ensures !Available(s, account)
  {
    if !(account in s.clients && s.clients[account].banned) {
      StillLocked(l, s, w);
    }
  }

  /** Once a holder raises a ban, no worker is ever handed that account again, in every run in
      which the holder does not crash before its ban has committed. */
  lemma BannedIsNeverHandedOut(l: Config, s: State, before: seq<Step>, w: nat, after: seq<Step>)
    requires Initial(s) && Budget(l) && l.lockHours >= 1 && l.distinctStamps
    requires Runs(l, s, before) && Enabled(l, Exec(l, s, before), RaiseBan(w))
    requires Runs(l, Apply(l, Exec(l, s, before), RaiseBan(w)), after) && CommitsFirst(after, w)
    ensures !HandsOut(after, PhaseOf(Exec(l, s, before), w).account)
  {
    RunKeeps(l, s, before);
    var t := Exec(l, s, before);
    StepKeeps(l, t, RaiseBan(w));
    CondemnedIsKept(l, Apply(l, t, RaiseBan(w)), after, PhaseOf(t, w).account, w);
  }

  /** Nobody holds the account, and its newest row keeps it locked until the given time. */
  ghost predicate Resting(s: State, account: int, until: int) {
    && (forall w :: !Holds(s, w, account))
    && Top(s.log, account).Some? && until <= Top(s.log, account).value.lockedUntil
  }

  /** Only acquiring an account gives it a new holder. */
  lemma NoNewHolder(l: Config, s: State, step: Step, account: int, v: nat)
    requires Enabled(l, s, step) && !Holds(s, v, account) && !(step.Acquire? && step.account == account)
    ensures !Holds(Apply(l, s, step), v, account)
  {
  }

  /** Rows are written by holders and by whoever acquires. */
  lemma TopStays(l: Config, s: State, step: Step, account: int)
    requires Enabled(l, s, step) && !(step.Acquire? && step.account == account)
    requires forall w :: !Holds(s, w, account)
    ensures Top(Apply(l, s, step).log, account) == Top(s.log, account)
  {
    hide Newest, Unlocked;
    if step.Acquire? || step.Finish? {
      var w := step.w;
      assert !Holds(s, w, account);
      var t := Apply(l, s, step);
      if |t.log| > |s.log| {
        TopAppended(s.log, t.log[|s.log|], account);
      }
    }
  }

  lemma RestingStays(l: Config, s: State, step: Step, account: int, until: int)
    requires Inv(l, s) && Enabled(l, s, step) && Resting(s, account, until) && s.clock < until
    ensures Resting(Apply(l, s, step), account, until)
  {
    assert !(step.Acquire? && step.account == account) by {
      UnlockedByTop(s, account);
    }
    hide Enabled, Apply, Holds;
    TopStays(l, s, step, account);
    forall v ensures !Holds(Apply(l, s, step), v, account) {
      NoNewHolder(l, s, step, account, v);
    }
  }

  lemma {:induction false} RestingIsKept(l: Config, s: State, steps: seq<Step>, account: int, until: int)
    requires Inv(l, s) && Budget(l) && l.lockHours >= 1 && l.distinctStamps && Runs(l, s, steps)
    requires Resting(s, account, until) && Exec(l, s, steps).clock < until
    ensures !HandsOut(steps, account)
    decreases steps
  {
    if steps != [] {
      var t := Apply(l, s, steps[0]);
      ClockGrows(l, t, steps[1..]);
      UnlockedByTop(s, account);
      RestingStays(l, s, steps[0], account, until);
      StepKeeps(l, s, steps[0]);
      RestingIsKept(l, t, steps[1..], account, until);
      forall i | 0 <= i < |steps| ensures !(steps[i].Acquire? && steps[i].account == account) {
        if i > 0 {
          assert steps[1..][i - 1] == steps[i];
        }
      }
    }
  }

  lemma {:induction false} ClockGrows(l: Config, s: State, steps: seq<Step>)
    requires Runs(l, s, steps)
    ensures s.clock <= Exec(l, s, steps).clock
    decreases steps
  {
    if steps != [] {
      ClockGrows(l, Apply(l, s, steps[0]), steps[1..]);
    }
  }

  /** A flood wait of `seconds` committed at some time keeps the account from everybody until
      ten seconds after the wait, in any interleaving. */
  lemma FloodIsRespected(l: Config, s: State, before: seq<Step>, w: nat, after: seq<Step>)
    requires Initial(s) && Budget(l) && l.lockHours >= 1 && l.distinctStamps
    requires Runs(l, s, before) && Enabled(l, Exec(l, s, before), Finish(w))
            && PhaseOf(Exec(l, s, before), w).outcome.FloodWait?
    requires Runs(l, Apply(l, Exec(l, s, before), Finish(w)), after)
    requires Exec(l, Apply(l, Exec(l, s, before), Finish(w)), after).clock
             < Exec(l, s, before).clock + PhaseOf(Exec(l, s, before), w).outcome.seconds + 10
    ensures !HandsOut(after, PhaseOf(Exec(l, s, before), w).account)
  {
    RunKeeps(l, s, before);
    var t := Exec(l, s, before);
    var p := PhaseOf(t, w);
    StepKeeps(l, t, Finish(w));
    var u := Apply(l, t, Finish(w));
    TopAppended(t.log, u.log[|t.log|], p.account);
    NobodyAfter(l, t, u, w);
    RestingIsKept(l, u, after, p.account, t.clock + p.outcome.seconds + 10);
  }

  function Penalty(outcome: Outcome): int
    requires !outcome.ClientBanned?
  {
    if outcome.FloodWait? then outcome.seconds + 10 else 0
  }

  /** Nobody holds the account, and its newest row locks it until this time. */
  ghost predicate Free(s: State, account: int, until: int) {
    && (forall w :: !Holds(s, w, account))
    && Top(s.log, account).Some? && Top(s.log, account).value.lockedUntil == until
    && account in s.clients
  }

  /** As long as it is not handed out, nothing happens to an account that nobody holds. */
  lemma {:induction false} FreeStays(l: Config, s: State, steps: seq<Step>, account: int, until: int)
    requires Runs(l, s, steps) && Free(s, account, until) && !HandsOut(steps, account)
    ensures Free(Exec(l, s, steps), account, until)
    ensures Exec(l, s, steps).clients[account].banned == s.clients[account].banned
    decreases steps
  {
    if steps != [] {
      NotHandedOutFirst(steps, account);
      FreeStep(l, s, steps[0], account, until);
      FreeStays(l, Apply(l, s, steps[0]), steps[1..], account, until);
    }
  }

  lemma FreeStep(l: Config, s: State, step: Step, account: int, until: int)
    requires Enabled(l, s, step) && Free(s, account, until) && !(step.Acquire? && step.account == account)
    ensures Free(Apply(l, s, step), account, until)
    ensures Apply(l, s, step).clients[account].banned == s.clients[account].banned
  {
    TopStays(l, s, step, account);
    forall v ensures !Holds(Apply(l, s, step), v, account) {
      NoNewHolder(l, s, step, account, v);
    }
    if step.Finish? {
      assert !Holds(s, step.w, account);
    }
  }

  lemma FreeLater(s: State, account: int, until: int, seconds: nat)
    requires Ordered(s) && Free(s, account, until)
    ensures Unlocked(s.(clock := s.clock + seconds), account) <==> s.clock + seconds >= until
  {
    hide Unlocked, Increasing;
    UnlockedByTop(s.(clock := s.clock + seconds), account);
  }

  /** Such an account is unlocked exactly from that time on, whatever others do meanwhile. */
  lemma FreeUntil(l: Config, s: State, after: seq<Step>, account: int, until: int, seconds: nat)
    requires Inv(l, s) && Budget(l) && l.lockHours >= 1 && l.distinctStamps
    requires Runs(l, s, after) && Free(s, account, until) && !HandsOut(after, account)
    ensures var u := Exec(l, s, after);
            && Free(u, account, until) && u.clients[account].banned == s.clients[account].banned
            && (Unlocked(u.(clock := u.clock + seconds), account) <==> u.clock + seconds >= until)
  {
    RunKeeps(l, s, after);
    hide Runs, Exec, Ordered, HolderOk, Free, Unlocked, HandsOut;
    FreeStays(l, s, after, account, until);
    FreeLater(Exec(l, s, after), account, until, seconds);
  }

  /** A worker that leaves or dies leaves its account without a holder. */
  lemma NobodyAfter(l: Config, t: State, u: State, w: nat)
    requires Inv(l, t) && !PhaseOf(t, w).Idle? && u.workers == t.workers[w := Idle]
    ensures forall v :: !Holds(u, v, PhaseOf(t, w).account)
  {
    InvExclusive(l, t);
    assert Holds(t, w, PhaseOf(t, w).account);
    forall v ensures !Holds(u, v, PhaseOf(t, w).account) {
      assert Holds(t, v, PhaseOf(t, w).account) ==> v == w;
    }
  }

  lemma FreeAfterExit(l: Config, t: State, w: nat)
    requires Inv(l, t) && l.distinctStamps && Enabled(l, t, Finish(w)) && !PhaseOf(t, w).outcome.ClientBanned?
    ensures Free(Apply(l, t, Finish(w)), PhaseOf(t, w).account, t.clock + Penalty(PhaseOf(t, w).outcome))
  {
    var u := Apply(l, t, Finish(w));
    assert HolderOk(l, t, w, t.workers[w]);
    NobodyAfter(l, t, u, w);
    TopAppended(t.log, u.log[|t.log|], PhaseOf(t, w).account);
  }

  lemma FreeAfterCrash(l: Config, t: State, w: nat)
    requires Inv(l, t) && !PhaseOf(t, w).Idle?
    ensures Free(Apply(l, t, Crash(w)), PhaseOf(t, w).account, PhaseOf(t, w).acquired + l.Lock())
    ensures !Apply(l, t, Crash(w)).clients[PhaseOf(t, w).account].banned
  {
    assert HolderOk(l, t, w, t.workers[w]);
    NobodyAfter(l, t, Apply(l, t, Crash(w)), w);
  }

  /** How long a holder's exit keeps its account from everybody, whatever others do: not at all
      after success, ten seconds more than the wait after a flood wait. */
  lemma ExitIsExact(l: Config, s: State, before: seq<Step>, w: nat, after: seq<Step>, seconds: nat)
    requires Initial(s) && Budget(l) && l.lockHours >= 1 && l.distinctStamps
    requires Runs(l, s, before) && Enabled(l, Exec(l, s, before), Finish(w))
            && !PhaseOf(Exec(l, s, before), w).outcome.ClientBanned?
    requires Runs(l, Apply(l, Exec(l, s, before), Finish(w)), after)
            && !HandsOut(after, PhaseOf(Exec(l, s, before), w).account)
    ensures var t := Exec(l, s, before);
            var u := Exec(l, Apply(l, t, Finish(w)), after);
            var a := PhaseOf(t, w).account;
            && (forall v :: !Holds(u, v, a))
            && (Unlocked(u.(clock := u.clock + seconds), a)
                <==> u.clock + seconds >= t.clock + Penalty(PhaseOf(t, w).outcome))
  {
    hide Inv, Unlocked, HandsOut, StampFree;
    RunKeeps(l, s, before);
    var t := Exec(l, s, before);
    StepKeeps(l, t, Finish(w));
    FreeAfterExit(l, t, w);
    hide Runs, Exec, Enabled, Apply;
    FreeUntil(l, Apply(l, t, Finish(w)), after, PhaseOf(t, w).account, t.clock + Penalty(PhaseOf(t, w).outcome),
        seconds);
  }

  /** After a crash the account comes back exactly when the lease ends, whatever others do. */
  lemma CrashIsExact(l: Config, s: State, before: seq<Step>, w: nat, after: seq<Step>, seconds: nat)
    requires Initial(s) && Budget(l) && l.lockHours >= 1 && l.distinctStamps
    requires Runs(l, s, before) && Enabled(l, Exec(l, s, before), Crash(w))
    requires Runs(l, Apply(l, Exec(l, s, before), Crash(w)), after)
            && !HandsOut(after, PhaseOf(Exec(l, s, before), w).account)
    ensures var p := PhaseOf(Exec(l, s, before), w);
            var u := Exec(l, Apply(l, Exec(l, s, before), Crash(w)), after);
            && (forall v :: !Holds(u, v, p.account))
            && p.account in u.clients && !u.clients[p.account].banned
            && (Unlocked(u.(clock := u.clock + seconds), p.account) <==> u.clock + seconds >= p.acquired + l.Lock())
  {
    hide Inv, Unlocked, HandsOut;
    RunKeeps(l, s, before);
    var t := Exec(l, s, before);
    StepKeeps(l, t, Crash(w));
    FreeAfterCrash(l, t, w);
    hide Runs, Exec, Enabled, Apply;
    FreeUntil(l, Apply(l, t, Crash(w)), after, PhaseOf(t, w).account, PhaseOf(t, w).acquired + l.Lock(), seconds);
  }

  /** The failing half of the ban: a holder that dies after raising it and before committing it
      leaves an account that is not banned and is handed out again exactly from the end of its
      lease on, if it has a session. */
  lemma UncommittedBanIsLost(l: Config, s: State, before: seq<Step>, w: nat, after: seq<Step>, seconds: nat)
    requires Initial(s) && Budget(l) && l.lockHours >= 1 && l.distinctStamps
    requires Runs(l, s, before) && PhaseOf(Exec(l, s, before), w).Leaving?
            && PhaseOf(Exec(l, s, before), w).outcome.ClientBanned?
    requires Runs(l, Apply(l, Exec(l, s, before), Crash(w)), after)
            && !HandsOut(after, PhaseOf(Exec(l, s, before), w).account)
    ensures var p := PhaseOf(Exec(l, s, before), w);
            var u := Exec(l, Apply(l, Exec(l, s, before), Crash(w)), after);
            && p.account in u.clients
            && (Available(u.(clock := u.clock + seconds), p.account)
                <==> u.clients[p.account].hasSession && u.clock + seconds >= p.acquired + l.Lock())
  {
    hide Unlocked, Runs, Exec, Inv;
    CrashIsExact(l, s, before, w, after, seconds);
  }

  function DyingRun(l: Config): seq<Step> {
    [Acquire(0, 7)] + [RaiseBan(0)] + [Crash(0)] + [Tick(l.Lock())] + [Acquire(1, 7)]
  }

  /** Such a run, with its second acquisition. */
  lemma DyingRunHandsOut(l: Config)
    requires l.lockHours >= 1
    ensures Runs(l, Alone(), DyingRun(l)) && HandsOut(DyingRun(l)[2..], 7)
  {
    RunThen(l, Alone(), [], Acquire(0, 7));
    assert [] + [Acquire(0, 7)] == [Acquire(0, 7)];
    RunThen(l, Alone(), [Acquire(0, 7)], RaiseBan(0));
    RunThen(l, Alone(), [Acquire(0, 7)] + [RaiseBan(0)], Crash(0));
    var dead := [Acquire(0, 7)] + [RaiseBan(0)] + [Crash(0)];
    RunThen(l, Alone(), dead, Tick(l.Lock()));
    assert Newest(Exec(l, Alone(), dead + [Tick(l.Lock())]).log, 7, 0);
    RunThen(l, Alone(), dead + [Tick(l.Lock())], Acquire(1, 7));
    assert DyingRun(l)[2..][2] == Acquire(1, 7);
  }
}
