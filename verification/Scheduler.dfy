/** `ClaimTask` and `GetTasks` run one after the other: what they return and write, and what
    a series of claims within one clock hour amounts to. */
module Scheduler {
  import opened Options
  import opened Schedule
  import opened Claims

  datatype Tables = Tables(tasks: Tasks, claims: seq<Claim>)

  /** The tables as the query sees them when no transaction is open. */
  function Quiet(s: Tables, now: int): State { State(now, s.tasks, s.claims, map[]) }

  function Due(s: Tables, now: int): set<int> {
    set id | id in s.tasks && Eligible(s.tasks[id], id, s.claims, now)
  }

  function Bucket(s: Tables, id: int): int { if id in s.tasks then s.tasks[id].bucket else 0 }

  /** The claim history row and the new `last_parsed_at`, each with its own clock reading. */
  function ClaimAt(s: Tables, id: int, parsed: int, stamped: int): Tables
    requires id in s.tasks
  {
    Tables(s.tasks[id := s.tasks[id].(lastParsedAt := Some(parsed))], s.claims + [Claim(id, stamped)])
  }

  /** One row per task, stamped as the inserts come. */
  function ClaimsOf(ids: seq<int>, stamps: nat -> int): seq<Claim> {
    seq(|ids|, i requires 0 <= i < |ids| => Claim(ids[i], stamps(i)))
  }

  lemma ClaimsOneMore(ids: seq<int>, stamps: nat -> int, i: nat)
    requires i < |ids|
    ensures ClaimsOf(ids[..i + 1], stamps) == ClaimsOf(ids[..i], stamps) + [Claim(ids[i], stamps(i))]
  {
  }

  /** Any order the database may choose among rows of one bucket. */
  ghost predicate Serves(find: (Tables, int, nat) -> seq<int>) {
    forall s, now, limit :: Scheduled(Quiet(s, now), now, limit, find(s, now, limit))
  }

  /** Due tasks of the lowest buckets, in bucket order and each once: all that are due, or as
      many as the limit allows. */
  predicate LowestDue(s: Tables, now: int, limit: nat, ids: seq<int>) {
    && |ids| <= limit
    && (forall i :: 0 <= i < |ids| ==> ids[i] in Due(s, now))
    && (forall i, j :: 0 <= i < j < |ids| ==> ids[i] != ids[j] && Bucket(s, ids[i]) <= Bucket(s, ids[j]))
    && forall id :: id in Due(s, now) && id !in ids ==>
         |ids| == limit && forall i :: 0 <= i < |ids| ==> Bucket(s, ids[i]) <= Bucket(s, id)
  }

  lemma QueryFindsDue(s: Tables, now: int, limit: nat, ids: seq<int>)
    requires Scheduled(Quiet(s, now), now, limit, ids)
    ensures LowestDue(s, now, limit, ids)
  {
    hide Eligible;
    forall id | id in s.tasks ensures !Locked(Quiet(s, now), id) {
    }
  }

  lemma AllInTasks(s: Tables, now: int, limit: nat, ids: seq<int>)
    requires LowestDue(s, now, limit, ids)
    ensures forall i :: 0 <= i < |ids| ==> ids[i] in s.tasks
  {
    hide Eligible;
  }

  /** The tasks of an answer. */
  function TaskIds(r: seq<(int, Option<int>)>): (ids: seq<int>)
    ensures |ids| == |r| && forall i :: 0 <= i < |r| ==> ids[i] == r[i].0
  {
    seq(|r|, i requires 0 <= i < |r| => r[i].0)
  }

  class SchedulerTables {
    var tasks: Tasks
    var claims: seq<Claim>

    function Value(): Tables
      reads this
    {
      Tables(tasks, claims)
    }

    /** One task of the lowest bucket due at the select, marked as parsed at the first clock
        reading and claimed at the insert, with the next run as of the second reading; nothing
        exactly when nothing is due. */
    method ClaimTask(selected: int, parsed: int, stamped: int, again: int, find: (Tables, int, nat) -> seq<int>)
      returns (r: Option<(int, Option<int>)>)
      requires Serves(find)
      modifies this
      ensures r.None? <==> Due(old(Value()), selected) == {}
      ensures r.None? ==> Value() == old(Value())
      ensures r.Some? ==>
        var id := r.value.0;
        && id in Due(old(Value()), selected)
        && (forall other :: other in Due(old(Value()), selected) ==> old(tasks)[id].bucket <= old(tasks)[other].bucket)
        && tasks == old(tasks)[id := old(tasks)[id].(lastParsedAt := Some(parsed))]
        && claims == old(claims) + [Claim(id, stamped)] && Value() == ClaimAt(old(Value()), id, parsed, stamped)
        && r.value.1 == NextRun(tasks[id], again)
    {
      var ids := find(Value(), selected, 1);
      assert Scheduled(Quiet(Value(), selected), selected, 1, ids);
      QueryFindsDue(Value(), selected, 1, ids);
      if |ids| == 0 {
        return None;
      }
      var id := ids[0];
      assert forall other :: other in ids ==> other == id;
      tasks := tasks[id := tasks[id].(lastParsedAt := Some(parsed))];
      claims := claims + [Claim(id, stamped)];
      r := Some((id, NextRun(tasks[id], again)));
    }

    /** The tasks due at the select, up to the limit; with `setProcessing` each gets a claim
        row, stamped at its insert, and in either case the tasks themselves stay as they are.
        The clock is read again for each next run. */
    method GetTasks(selected: int, setProcessing: bool, limit: nat, stamps: nat -> int, readings: nat -> int,
                    find: (Tables, int, nat) -> seq<int>)
      returns (r: seq<(int, Option<int>)>)
      requires Serves(find)
      modifies this
      ensures tasks == old(tasks)
      ensures LowestDue(old(Value()), selected, limit, TaskIds(r))
      ensures forall i :: 0 <= i < |r| ==> r[i].0 in tasks && r[i].1 == NextRun(tasks[r[i].0], readings(i))
      ensures claims == if setProcessing then old(claims) + ClaimsOf(TaskIds(r), stamps) else old(claims)
      ensures setProcessing ==> |claims| == |old(claims)| + |r| && forall i :: 0 <= i < |r| ==>
              claims[|old(claims)| + i] == Claim(r[i].0, stamps(i))
    {
      hide NextRun, Eligible, Scheduled, LowestDue, TaskIds;
      var ids := find(Value(), selected, limit);
      assert Scheduled(Quiet(Value(), selected), selected, limit, ids);
      QueryFindsDue(Value(), selected, limit, ids);
      AllInTasks(Value(), selected, limit, ids);
      r := [];
      var i := 0;
      while i < |ids|
        invariant 0 <= i <= |ids| && TaskIds(r) == ids[..i] && tasks == old(tasks)
        invariant forall j :: 0 <= j < i ==> r[j].1 == NextRun(tasks[ids[j]], readings(j))
        invariant claims == old(claims) + if setProcessing then ClaimsOf(ids[..i], stamps) else []
      {
        if setProcessing {
          claims := claims + [Claim(ids[i], stamps(i))];
          ClaimsOneMore(ids, stamps, i);
        }
        r := r + [(ids[i], NextRun(tasks[ids[i]], readings(i)))];
        i := i + 1;
      }
      assert ids[..i] == ids;
    }
  }

  /** A serial claim is a run of the transaction steps. */
  lemma ClaimIsATransaction(s: Tables, id: int, selected: int, parsed: int, stamped: int)
    requires id in s.tasks && selected <= stamped && Scheduled(Quiet(s, selected), selected, 1, [id])
    ensures var t := ClaimAt(s, id, parsed, stamped);
            var steps := [Begin(0, 1), Select(0, [id]), Tick(stamped - selected), Insert(0), ChangeTasks(t.tasks),
                Commit(0)];
            Runs(Quiet(s, selected), steps) && Exec(Quiet(s, selected), steps) == Quiet(t, stamped)
  {
    var t := ClaimAt(s, id, parsed, stamped);
    var s0 := Quiet(s, selected);
    var s1 := Apply(s0, Begin(0, 1));
    assert forall other :: Locked(s1, other) <==> Locked(s0, other);
    var s2 := Apply(s1, Select(0, [id]));
    var s3 := Apply(s2, Tick(stamped - selected));
    var s4 := Apply(s3, Insert(0));
    assert s4.txns[0].pending == [Claim(id, stamped)];
    var s5 := Apply(s4, ChangeTasks(t.tasks));
    var s6 := Apply(s5, Commit(0));
    assert s6.txns == map[];
    SixSteps(s0, Begin(0, 1), Select(0, [id]), Tick(stamped - selected), Insert(0), ChangeTasks(t.tasks), Commit(0));
  }

  lemma OneStep(s: State, a: Step, rest: seq<Step>)
    requires Enabled(s, a) && Runs(Apply(s, a), rest)
    ensures Runs(s, [a] + rest) && Exec(s, [a] + rest) == Exec(Apply(s, a), rest)
  {
    assert ([a] + rest)[1..] == rest;
  }

  lemma SixSteps(s: State, a: Step, b: Step, c: Step, d: Step, e: Step, f: Step)
    requires Enabled(s, a) && Enabled(Apply(s, a), b) && Enabled(Apply(Apply(s, a), b), c)
    requires Enabled(Apply(Apply(Apply(s, a), b), c), d) && Enabled(Apply(Apply(Apply(Apply(s, a), b), c), d), e)
    requires Enabled(Apply(Apply(Apply(Apply(Apply(s, a), b), c), d), e), f)
    ensures Runs(s, [a, b, c, d, e, f])
    ensures Exec(s, [a, b, c, d, e, f]) == Apply(Apply(Apply(Apply(Apply(Apply(s, a), b), c), d), e), f)
  {
    hide Enabled, Apply;
    var s1 := Apply(s, a);
    var s2 := Apply(s1, b);
    var s3 := Apply(s2, c);
    var s4 := Apply(s3, d);
    var s5 := Apply(s4, e);
    assert Runs(Apply(s5, f), []) && Exec(Apply(s5, f), []) == Apply(s5, f);
    OneStep(s5, f, []);
    assert [f] + [] == [f] && [e] + [f] == [e, f] && [d] + [e, f] == [d, e, f] && [c] + [d, e, f] == [c, d, e, f];
    assert [b] + [c, d, e, f] == [b, c, d, e, f] && [a] + [b, c, d, e, f] == [a, b, c, d, e, f];
    OneStep(s4, e, [f]);
    OneStep(s3, d, [e, f]);
    OneStep(s2, c, [d, e, f]);
    OneStep(s1, b, [c, d, e, f]);
    OneStep(s, a, [b, c, d, e, f]);
  }

  // ---------- One hour of claims ----------

  /** One call of `ClaimTask` and its clock readings. */
  datatype Pick = Pick(id: int, selected: int, parsed: int, stamped: int)

  /** A claim that `ClaimTask` may make. */
  predicate Claimable(s: Tables, pick: Pick) {
    && pick.id in Due(s, pick.selected)
    && forall other :: other in Due(s, pick.selected) ==> s.tasks[pick.id].bucket <= s.tasks[other].bucket
  }

  function AfterOne(s: Tables, pick: Pick): Tables
    requires pick.id in s.tasks
  {
    ClaimAt(s, pick.id, pick.parsed, pick.stamped)
  }

  predicate ClaimRun(s: Tables, picks: seq<Pick>)
    decreases picks
  {
    picks == [] || (Claimable(s, picks[0]) && ClaimRun(AfterOne(s, picks[0]), picks[1..]))
  }

  function After(s: Tables, picks: seq<Pick>): Tables
    requires ClaimRun(s, picks)
    decreases picks
  {
    if picks == [] then s else After(AfterOne(s, picks[0]), picks[1..])
  }

  function Ids(picks: seq<Pick>): set<int> { set i | 0 <= i < |picks| :: picks[i].id }

  /** Every call falls into the hour of `last`, its select not after it, and the selects come in
      the order of the calls. */
  predicate WithinHour(picks: seq<Pick>, last: int) {
    && (forall i :: 0 <= i < |picks| ==>
          && picks[i].selected <= picks[i].parsed <= picks[i].stamped && picks[i].selected <= last
          && HourStart(picks[i].selected) == HourStart(picks[i].stamped) == HourStart(last))
    && forall i, j :: 0 <= i < j < |picks| ==> picks[i].selected <= picks[j].selected
  }

  /** Within the hour, a claim takes its task out of what is due, and nothing else. */
  lemma ClaimRemovesOne(s: Tables, pick: Pick, last: int)
    requires pick.id in Due(s, pick.selected) && WithinHour([pick], last)
    ensures pick.id in Due(s, last) && Due(AfterOne(s, pick), last) == Due(s, last) - {pick.id}
  {
    var t, id := AfterOne(s, pick), pick.id;
    assert [pick][0] == pick;
    Hours(pick.selected, last);
    assert t.claims[|s.claims|].task == id && t.claims[|s.claims|].at >= HourStart(last);
    forall other | other in s.tasks && other != id
      ensures Claimed(t.claims, other, HourStart(last)) <==> Claimed(s.claims, other, HourStart(last))
    {
      if Claimed(s.claims, other, HourStart(last)) {
        var i :| 0 <= i < |s.claims| && s.claims[i].task == other && s.claims[i].at >= HourStart(last);
        assert t.claims[i] == s.claims[i];
      }
    }
    forall other ensures other in Due(t, last) <==> other in Due(s, last) - {id} {
      if other == id {
        assert Claimed(t.claims, id, HourStart(last));
      }
    }
  }

  lemma IdsStep(picks: seq<Pick>)
    requires picks != []
    ensures Ids(picks) == {picks[0].id} + Ids(picks[1..])
  {
    forall id | id in Ids(picks) ensures id in {picks[0].id} + Ids(picks[1..]) {
      var i :| 0 <= i < |picks| && picks[i].id == id;
      if i > 0 {
        assert picks[1..][i - 1].id == id;
      }
    }
    forall id | id in Ids(picks[1..]) ensures id in Ids(picks) {
      var i :| 0 <= i < |picks[1..]| && picks[1..][i].id == id;
      assert picks[i + 1].id == id;
    }
  }

  /** A series of claims within an hour: each due task at most once, and each claim leaves
      one task fewer due. */
  lemma {:induction false} ClaimsAreDistinct(s: Tables, picks: seq<Pick>, last: int)
    requires ClaimRun(s, picks) && WithinHour(picks, last)
    ensures Ids(picks) <= Due(s, last)
    ensures Due(After(s, picks), last) == Due(s, last) - Ids(picks)
    ensures |Ids(picks)| == |picks|
    ensures |Due(After(s, picks), last)| == |Due(s, last)| - |picks|
    decreases picks
  {
    hide Eligible;
    if picks == [] {
      assert Ids(picks) == {};
    } else {
      var t := AfterOne(s, picks[0]);
      ClaimRemovesOne(s, picks[0], last);
      ClaimsAreDistinct(t, picks[1..], last);
      IdsStep(picks);
      TakeOne(Due(s, last), picks[0].id, Ids(picks[1..]));
    }
  }

  lemma TakeOne(due: set<int>, id: int, rest: set<int>)
    requires id in due && rest <= due - {id}
    ensures {id} + rest <= due && due - {id} - rest == due - ({id} + rest)
    ensures |{id} + rest| == |rest| + 1 && |due - {id}| == |due| - 1
  {
    assert due == (due - {id}) + {id};
  }

  /** What is due later in the hour but was not due before waits for a later minute. */
  lemma LaterBuckets(s: Tables, pick: Pick, later: int, other: int)
    requires Claimable(s, pick) && WithinHour([pick], later)
    requires other in Due(AfterOne(s, pick), later)
    ensures s.tasks[pick.id].bucket <= s.tasks[other].bucket
  {
    assert [pick][0] == pick;
    ClaimRemovesOne(s, pick, later);
    if other !in Due(s, pick.selected) {
      assert MinuteOf(pick.selected) < s.tasks[other].bucket;
    }
  }

  lemma BucketsUnchanged(s: Tables, pick: Pick, other: int)
    requires pick.id in s.tasks
    ensures Bucket(AfterOne(s, pick), other) == Bucket(s, other)
  {
  }

  /** Claims come in bucket order as time goes on. */
  lemma {:induction false} ClaimsInBucketOrder(s: Tables, picks: seq<Pick>, last: int, i: nat, j: nat)
    requires ClaimRun(s, picks) && WithinHour(picks, last) && i <= j < |picks|
    ensures Bucket(s, picks[i].id) <= Bucket(s, picks[j].id)
    decreases picks
  {
    hide Eligible;
    if i < j {
      var t := AfterOne(s, picks[0]);
      BucketsUnchanged(s, picks[0], picks[i].id);
      BucketsUnchanged(s, picks[0], picks[j].id);
      assert picks[1..][j - 1] == picks[j];
      if i > 0 {
        assert picks[1..][i - 1] == picks[i];
        ClaimsInBucketOrder(t, picks[1..], last, i - 1, j - 1);
      } else {
        ClaimsAreDistinct(t, picks[1..j + 1], picks[j].selected) by {
          RunPrefix(t, picks[1..], j);
          assert picks[1..][..j] == picks[1..j + 1];
        }
        assert picks[1..j + 1][j - 1].id == picks[j].id;
        LaterBuckets(s, picks[0], picks[j].selected, picks[j].id);
      }
    }
  }

  lemma {:induction false} RunPrefix(s: Tables, picks: seq<Pick>, n: nat)
    requires ClaimRun(s, picks) && n <= |picks|
    ensures ClaimRun(s, picks[..n])
    decreases picks
  {
    if n > 0 {
      assert picks[..n][1..] == picks[1..][..n - 1];
      RunPrefix(AfterOne(s, picks[0]), picks[1..], n - 1);
    }
  }

  /** Claiming until nothing is returned, within one hour and with nothing else going on,
      claims every task due by the end of it exactly once, in bucket order, and stops after
      as many claims as there were such tasks. */
  lemma {:induction false} HourIsDrained(s: Tables, picks: seq<Pick>, last: int)
    requires ClaimRun(s, picks) && WithinHour(picks, last) && Due(After(s, picks), last) == {}
    ensures Ids(picks) == Due(s, last) && |picks| == |Due(s, last)|
    ensures forall i, j :: 0 <= i < j < |picks| ==>
            picks[i].id != picks[j].id && Bucket(s, picks[i].id) <= Bucket(s, picks[j].id)
  {
    ClaimsAreDistinct(s, picks, last);
    forall i: nat, j: nat | i < j < |picks|
      ensures picks[i].id != picks[j].id && Bucket(s, picks[i].id) <= Bucket(s, picks[j].id)
    {
      ClaimsInBucketOrder(s, picks, last, i, j);
      PicksDiffer(s, picks, last, i, j);
    }
  }

  lemma {:induction false} PicksDiffer(s: Tables, picks: seq<Pick>, last: int, i: nat, j: nat)
    requires ClaimRun(s, picks) && WithinHour(picks, last) && i < j < |picks|
    ensures picks[i].id != picks[j].id
    decreases picks
  {
    var t := AfterOne(s, picks[0]);
    assert picks[1..][j - 1] == picks[j];
    if i > 0 {
      assert picks[1..][i - 1] == picks[i];
      PicksDiffer(t, picks[1..], last, i - 1, j - 1);
    } else {
      ClaimRemovesOne(s, picks[0], last);
      ClaimsAreDistinct(t, picks[1..], last);
      assert picks[j].id in Ids(picks[1..]);
    }
  }
}
