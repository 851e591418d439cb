/** `MySQLSessionStorage.get_session` and the exit paths of `get_client`, as code over the
    shared database; every method is tied to steps of the lease protocol. */
module SessionStorage {
  import opened Clock
  import opened Lease
  import opened Options

  /** The tables the protocol uses, with the shared clock and the ghost of who does what. */
  class Database {
    var clock: int
    var clients: map<int, Client>
    var log: seq<Row>
    var workers: map<nat, Phase>

    function State(): State
      reads this
    {
      Lease.State(clock, clients, log, workers)
    }

    method Become(s: State)
      modifies this
      ensures State() == s
    {
      clock, clients, log, workers := s.clock, s.clients, s.log, s.workers;
    }
  }

  function ActorOf(step: Step): Option<nat> {
    match step
    case Tick(_) => None
    case NewClient(_, _) => None
    case SetSession(_, _) => None
    case _ => Some(step.w)
  }

  /** What everybody else may do from one state to another. */
  ghost predicate Elsewhere(l: Config, w: nat, s: State, steps: seq<Step>, t: State) {
    && Runs(l, s, steps) && Exec(l, s, steps) == t
    && forall step :: step in steps ==> ActorOf(step) != Some(w)
  }

  lemma ElsewhereConcat(l: Config, w: nat, s: State, first: seq<Step>, t: State, second: seq<Step>, u: State)
    requires Elsewhere(l, w, s, first, t) && Elsewhere(l, w, t, second, u)
    ensures Elsewhere(l, w, s, first + second, u)
  {
    RunsConcat(l, s, first, second);
  }

  lemma {:induction false} OthersLeaveMeAlone(l: Config, w: nat, s: State, steps: seq<Step>, t: State)
    requires Elsewhere(l, w, s, steps, t)
    ensures PhaseOf(t, w) == PhaseOf(s, w)
    decreases steps
  {
    if steps != [] {
      var s' := Apply(l, s, steps[0]);
      assert PhaseOf(s', w) == PhaseOf(s, w) by {
        assert ActorOf(steps[0]) != Some(w);
      }
      OthersLeaveMeAlone(l, w, s', steps[1..], t);
    }
  }

  datatype Acquired = Session(id: int) | Timeout | NoWorkingClients

  /** The row the locking query returns: any available account, nothing when there is none. */
  ghost predicate Picks(find: State -> Option<int>) {
    forall s :: match find(s)
                case Some(a) => Available(s, a)
                case None => forall a :: !Available(s, a)
  }

  /** What happens elsewhere during a sleep of one second. */
  ghost predicate Sleeps(l: Config, w: nat, sleep: State -> (seq<Step>, State)) {
    forall s :: PhaseOf(s, w).Idle? ==> Elsewhere(l, w, s, sleep(s).0, sleep(s).1) && s.clock < sleep(s).1.clock
  }

  class MySQLSessionStorage {
    const l: Config
    const worker: nat
    const db: Database

    constructor (l: Config, worker: nat, db: Database)
      ensures this.l == l && this.worker == worker && this.db == db
    {
      this.l, this.worker, this.db := l, worker, db;
    }

    /** Polls until an account is found or the time is up. A session is an account available at
        the last poll, within the time limit, taken by this worker; a timeout means that at
        every poll there was nothing to hand out. */
    method Acquire(timeout: nat, find: State -> Option<int>, sleep: State -> (seq<Step>, State))
      returns (r: Acquired, ghost waited: seq<Step>, ghost polls: seq<State>)
      requires Picks(find) && Sleeps(l, worker, sleep) && PhaseOf(db.State(), worker).Idle?
      modifies db
      ensures !r.NoWorkingClients?
      ensures forall p :: p in polls ==> p.clock - old(db.clock) < timeout
      ensures r.Timeout? ==>
        && Elsewhere(l, worker, old(db.State()), waited, db.State()) && db.clock - old(db.clock) >= timeout
        && (timeout > 0 ==> polls != [] && polls[0] == old(db.State()))
        && forall p, a :: p in polls ==> !Available(p, a)
      ensures r.Session? ==>
        && polls != [] && db.clock - old(db.clock) < timeout
        && Elsewhere(l, worker, old(db.State()), waited, polls[|polls| - 1])
        && PhaseOf(polls[|polls| - 1], worker).Idle? && Available(polls[|polls| - 1], r.id)
        && db.State() == Taken(l, polls[|polls| - 1], worker, r.id)
        && db.log == polls[|polls| - 1].log + [Row(r.id, worker, db.clock + 3600 * l.lockHours, db.clock, Usage)]
        && db.clients == polls[|polls| - 1].clients && db.clock == polls[|polls| - 1].clock
    {
      var start := db.clock;
      waited, polls := [], [];
      while db.clock - start < timeout
        invariant Elsewhere(l, worker, old(db.State()), waited, db.State())
        invariant PhaseOf(db.State(), worker).Idle?
        invariant polls == [] ==> db.State() == old(db.State())
        invariant polls != [] ==> polls[0] == old(db.State())
        invariant forall p :: p in polls ==> p.clock - start < timeout
        invariant forall p, a :: p in polls ==> !Available(p, a)
        decreases timeout - (db.clock - start)
      {
        ghost var s := db.State();
        polls := polls + [s];
        var available := find(db.State());
        if available.Some? {
          var lockedUntil := db.clock + HOUR * l.lockHours;
          db.log := db.log + [Row(available.value, worker, lockedUntil, db.clock, Usage)];
          db.workers := db.workers[worker := Connecting(available.value, db.clock)];
          r := Session(available.value);
          return;
        }
        var slept := sleep(db.State());
        ElsewhereConcat(l, worker, old(db.State()), waited, s, slept.0, slept.1);
        OthersLeaveMeAlone(l, worker, s, slept.0, slept.1);
        waited := waited + slept.0;
        db.Become(slept.1);
      }
      r := Timeout;
    }

    /** The way into `get_client`. */
    method GetClient(timeout: nat, find: State -> Option<int>, sleep: State -> (seq<Step>, State))
      returns (r: Acquired, ghost waited: seq<Step>, ghost polls: seq<State>)
      requires Picks(find) && Sleeps(l, worker, sleep) && PhaseOf(db.State(), worker).Idle?
      modifies db
      ensures r.NoWorkingClients? <==> forall a ::
              a in old(db.clients) ==> old(db.clients)[a].banned || !old(db.clients)[a].hasSession
      ensures r.NoWorkingClients? ==> db.State() == old(db.State())
      ensures forall p :: p in polls ==> p.clock - old(db.clock) < timeout
      ensures r.Timeout? ==>
        && Elsewhere(l, worker, old(db.State()), waited, db.State()) && db.clock - old(db.clock) >= timeout
        && (timeout > 0 ==> polls != [] && polls[0] == old(db.State()))
        && forall p, a :: p in polls ==> !Available(p, a)
      ensures r.Session? ==>
        && polls != [] && db.clock - old(db.clock) < timeout
        && Elsewhere(l, worker, old(db.State()), waited, polls[|polls| - 1])
        && PhaseOf(polls[|polls| - 1], worker).Idle? && Available(polls[|polls| - 1], r.id)
        && db.State() == Taken(l, polls[|polls| - 1], worker, r.id)
    {
      waited, polls := [], [];
      if forall a :: a in db.clients ==> db.clients[a].banned || !db.clients[a].hasSession {
        r := NoWorkingClients;
      } else {
        r, waited, polls := Acquire(timeout, find, sleep);
      }
    }

    /** The way out of `get_client`: a normal exit releases the account, a flood wait delays
        it, an invalid client writes no row and is banned if it is still in the table. */
    method Exit()
      requires PhaseOf(db.State(), worker).Leaving?
      modifies db
      ensures db.State() == Committed(old(db.State()), worker)
      ensures db.clock == old(db.clock) && PhaseOf(db.State(), worker).Idle?
      ensures var account, outcome := old(db.workers)[worker].account, old(db.workers)[worker].outcome;
              && (outcome == Success ==>
                    db.log == old(db.log) + [Row(account, worker, db.clock, db.clock, UsageCompleted)])
              && (outcome.FloodWait? ==>
                    db.log == old(db.log) + [Row(account, worker, db.clock + outcome.seconds + 10, db.clock, Flood)])
              && (outcome == ClientBanned ==> db.log == old(db.log))
              && db.clients.Keys == old(db.clients).Keys
              && forall a :: a in db.clients ==>
                   db.clients[a] == if outcome == ClientBanned && a == account
                                    then Client(true, old(db.clients)[a].hasSession) else old(db.clients)[a]
    {
      var phase := db.workers[worker];
      match phase.outcome {
        case Success =>
          db.log := db.log + [Row(phase.account, worker, db.clock, db.clock, UsageCompleted)];
        case FloodWait(seconds) =>
          db.log := db.log + [Row(phase.account, worker, db.clock + (seconds + 10), db.clock, Flood)];
        case ClientBanned =>
          if phase.account in db.clients {
            var client := db.clients[phase.account];
            db.clients := db.clients[phase.account := client.(banned := true)];
          }
      }
      db.workers := db.workers[worker := Idle];
    }
  }

  /** What a session and an exit do to the tables are steps of the protocol, where the rows of
      an account have distinct stamps, if this second has none of the account yet. */
  lemma TakenIsAStep(l: Config, s: State, w: nat, a: int)
    ensures PhaseOf(s, w).Idle? && Available(s, a) && StampFree(l, s, a) <==> Enabled(l, s, Step.Acquire(w, a))
    ensures Enabled(l, s, Step.Acquire(w, a)) ==> Apply(l, s, Step.Acquire(w, a)) == Taken(l, s, w, a)
    ensures Enabled(l, s, Finish(w)) ==> Apply(l, s, Finish(w)) == Committed(s, w)
  {
  }

  /** A session handed out by a correct history has this worker as its only holder, under a
      usage row that is the newest of the account and outlives the hold. */
  lemma SessionIsLeased(l: Config, w: nat, initial: State, history: seq<Step>, s: State, waited: seq<Step>,
      polled: State, a: int)
    requires Initial(initial) && Runs(l, initial, history) && Exec(l, initial, history) == s
    requires Budget(l) && l.lockHours >= 1 && l.distinctStamps
    requires Elsewhere(l, w, s, waited, polled)
    requires PhaseOf(polled, w).Idle? && Available(polled, a) && StampFree(l, polled, a)
    ensures var t := Taken(l, polled, w, a);
            && (forall v :: Holds(t, v, a) ==> v == w)
            && Top(t.log, a) == Some(Row(a, w, polled.clock + l.Lock(), polled.clock, Usage))
            && !Unlocked(t, a)
  {
    RunKeeps(l, initial, history);
    RunKeeps(l, s, waited);
    StepKeeps(l, polled, Step.Acquire(w, a));
    var t := Taken(l, polled, w, a);
    InvExclusive(l, t);
    assert Holds(t, w, a);
    StillLocked(l, t, w);
    TopAppended(polled.log, t.log[|polled.log|], a);
  }
}
