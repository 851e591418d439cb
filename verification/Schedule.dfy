/** When a task is due: the selection predicate of the scheduler's query and the time that
    `calculate_next_run` promises. Times are whole seconds of UTC. */
module Schedule {
  import opened Clock
  import opened Options

  datatype Status = IDLE | SKIP | EXISTS | ERROR

  datatype Task = Task(url: string, status: Status, bucket: int, lastParsedAt: Option<int>, createdAt: int)

  datatype Claim = Claim(task: int, at: int)

  type Tasks = map<int, Task>

  function HourStart(t: int): int { t - t % HOUR }

  function MinuteOf(t: int): int { t % HOUR / MINUTE }

  /** The check constraint on the bucket column. */
  predicate Valid(task: Task) { 0 <= task.bucket < 60 }

  function Reference(task: Task): int {
    if task.lastParsedAt.Some? then task.lastParsedAt.value else task.createdAt
  }

  predicate Claimed(claims: seq<Claim>, id: int, since: int) {
    exists i :: 0 <= i < |claims| && claims[i].task == id && claims[i].at >= since
  }

  /** The predicate of `get_scheduled_tasks`. */
  predicate Eligible(task: Task, id: int, claims: seq<Claim>, now: int) {
    && task.status == IDLE
    && task.bucket <= MinuteOf(now)
    && Reference(task) < HourStart(now)
    && !Claimed(claims, id, HourStart(now))
  }

  /** The moment of the task's minute in the hour of `now`. */
  function BucketTime(task: Task, now: int): int { HourStart(now) + MINUTE * task.bucket }

  /** `calculate_next_run`. */
  function NextRun(task: Task, now: int): Option<int> {
    if task.status != IDLE && task.status != SKIP then None
    else if Reference(task) < BucketTime(task, now) then Some(BucketTime(task, now))
    else Some(BucketTime(task, now) + HOUR)
  }

  function Max(a: int, b: int): int { if a < b then b else a }

  /** The first moment from `now` on at which the query selects the task. */
  ghost predicate FirstEligible(task: Task, id: int, claims: seq<Claim>, now: int, t: int) {
    && now <= t && Eligible(task, id, claims, t)
    && forall u :: now <= u < t ==> !Eligible(task, id, claims, u)
  }

  lemma Hours(t: int, u: int)
    requires HourStart(t) <= u
    ensures HourStart(t) <= HourStart(u)
    ensures u < HourStart(t) + HOUR ==> HourStart(u) == HourStart(t) && MinuteOf(u) == (u - HourStart(t)) / MINUTE
    ensures HourStart(t) + HOUR <= u ==> HourStart(t) + HOUR <= HourStart(u)
    ensures HourStart(t) + HOUR <= u < HourStart(t) + 2 * HOUR ==>
              HourStart(u) == HourStart(t) + HOUR && MinuteOf(u) == (u - HourStart(t) - HOUR) / MINUTE
  {
    assert HourStart(t) == t / HOUR * HOUR && HourStart(u) == u / HOUR * HOUR;
  }

  lemma MinuteReached(offset: int, bucket: int)
    ensures bucket <= offset / MINUTE <==> MINUTE * bucket <= offset
  {
  }

  /** At no instant before the promised time does the query select the task; a task without
      a promise is never selected. */
  lemma NeverTooLate(task: Task, id: int, claims: seq<Claim>, now: int, t: int)
    requires Valid(task) && now <= t
    requires NextRun(task, now).Some? ==> t < NextRun(task, now).value
    ensures !Eligible(task, id, claims, t)
  {
    Hours(now, t);
    if t < HourStart(now) + HOUR {
      MinuteReached(t - HourStart(now), task.bucket);
    } else {
      MinuteReached(t - HourStart(now) - HOUR, task.bucket);
    }
  }

  /** The recorded past: nothing is stamped later than `now`. */
  predicate Past(task: Task, claims: seq<Claim>, now: int) {
    && task.createdAt <= now && (task.lastParsedAt.Some? ==> task.lastParsedAt.value <= now)
    && forall i :: 0 <= i < |claims| ==> claims[i].at <= now
  }

  /** What the promise overlooks: a task created or parsed within this hour but before its
      minute, and a claim of this hour that left `last_parsed_at` behind. */
  predicate PromiseIsSound(task: Task, id: int, claims: seq<Claim>, now: int) {
    Reference(task) < BucketTime(task, now) ==> Reference(task) < HourStart(now) && !Claimed(claims, id, HourStart(now))
  }

  lemma EligibleThisHour(task: Task, id: int, claims: seq<Claim>, now: int)
    requires Valid(task) && Reference(task) < BucketTime(task, now) && task.status == IDLE
    ensures Eligible(task, id, claims, Max(now, BucketTime(task, now))) <==> PromiseIsSound(task, id, claims, now)
  {
    var t := Max(now, BucketTime(task, now));
    Hours(now, t);
    MinuteReached(t - HourStart(now), task.bucket);
  }

  lemma EligibleNextHour(task: Task, id: int, claims: seq<Claim>, now: int)
    requires Valid(task) && Past(task, claims, now) && task.status == IDLE
    ensures Eligible(task, id, claims, BucketTime(task, now) + HOUR)
  {
    var t := BucketTime(task, now) + HOUR;
    Hours(now, t);
    MinuteReached(t - HourStart(now) - HOUR, task.bucket);
  }

  /** The promise, or now when it already passed, is the first moment the task is selected:
      exactly for idle tasks under `PromiseIsSound`. */
  lemma NextRunIsExact(task: Task, id: int, claims: seq<Claim>, now: int)
    requires Valid(task) && Past(task, claims, now) && NextRun(task, now).Some?
    ensures FirstEligible(task, id, claims, now, Max(now, NextRun(task, now).value))
            <==> task.status == IDLE && PromiseIsSound(task, id, claims, now)
  {
    var promised := NextRun(task, now).value;
    forall u | now <= u < Max(now, promised) ensures !Eligible(task, id, claims, u) {
      NeverTooLate(task, id, claims, now, u);
    }
    if task.status == IDLE {
      if Reference(task) < BucketTime(task, now) {
        EligibleThisHour(task, id, claims, now);
      } else {
        EligibleNextHour(task, id, claims, now);
      }
    }
  }

  /** What `ClaimTask` returns: it selects, reads the clock for `last_parsed_at`, inserts the
      claim, and reads the clock again for the next run. The time returned (or the second
      reading, if it passed) is the first moment of the next selection exactly if the first
      reading is not before the task's minute in the hour of the second, or the claim was
      stamped before that hour. */
  lemma ClaimPromiseIsExact(task: Task, id: int, claims: seq<Claim>, selected: int, parsed: int, stamped: int,
      again: int)
    requires Valid(task) && Past(task, claims, selected) && Eligible(task, id, claims, selected)
    requires selected <= parsed <= stamped <= again
    ensures var after := task.(lastParsedAt := Some(parsed));
            && NextRun(after, again).Some?
            && (FirstEligible(after, id, claims + [Claim(id, stamped)], again, Max(again, NextRun(after, again).value))
                <==> BucketTime(task, again) <= parsed || stamped < HourStart(again))
  {
    var after, log := task.(lastParsedAt := Some(parsed)), claims + [Claim(id, stamped)];
    assert Past(after, log, again);
    NextRunIsExact(after, id, log, again);
    assert Claimed(log, id, HourStart(again)) <==> HourStart(again) <= stamped by {
      assert log[|claims|].task == id && log[|claims|].at == stamped;
    }
  }

  /** Within one hour: the returned time lies in (again, again + 60 min], after the stamp, and
      from the first clock reading on the task is not selected before it. */
  lemma ClaimPromise(task: Task, id: int, claims: seq<Claim>, selected: int, parsed: int, stamped: int, again: int)
    requires Valid(task) && Past(task, claims, selected) && Eligible(task, id, claims, selected)
    requires selected <= parsed <= stamped <= again && HourStart(selected) == HourStart(again)
    ensures var after := task.(lastParsedAt := Some(parsed));
            var next := NextRun(after, again);
            && next.Some? && again < next.value <= again + HOUR
            && FirstEligible(after, id, claims + [Claim(id, stamped)], parsed, next.value)
  {
    var after, log := task.(lastParsedAt := Some(parsed)), claims + [Claim(id, stamped)];
    Hours(selected, parsed);
    Hours(selected, again);
    MinuteReached(selected - HourStart(selected), task.bucket);
    ClaimPromiseIsExact(task, id, claims, selected, parsed, stamped, again);
    var next := BucketTime(after, again) + HOUR;
    forall u | parsed <= u < next ensures !Eligible(after, id, log, u) {
      NeverTooLate(after, id, log, parsed, u);
    }
  }

  /** `GetTasks` leaves `last_parsed_at` alone. What it reports for a task it has claimed is the
      task's minute in the hour of the clock reading: a time that has passed if that is the
      hour of the select, and right exactly if the claim was stamped in an earlier hour. */
  lemma GetTasksPromisesThePast(task: Task, id: int, claims: seq<Claim>, selected: int, stamped: int, again: int)
    requires Valid(task) && Past(task, claims, selected) && Eligible(task, id, claims, selected)
    requires selected <= stamped <= again
    ensures NextRun(task, again) == Some(BucketTime(task, again))
    ensures HourStart(selected) == HourStart(again) ==> BucketTime(task, again) <= selected
    ensures FirstEligible(task, id, claims + [Claim(id, stamped)], again, Max(again, BucketTime(task, again)))
            <==> stamped < HourStart(again)
  {
    var log := claims + [Claim(id, stamped)];
    Hours(selected, again);
    MinuteReached(selected - HourStart(selected), task.bucket);
    NextRunIsExact(task, id, log, again);
    assert Claimed(log, id, HourStart(again)) <==> HourStart(again) <= stamped by {
      assert log[|claims|].task == id && log[|claims|].at == stamped;
    }
  }

  /** The promise, for a task that is idle or skipped: the first moment of its minute that lies
      in this hour or later and after the last parsing, or after the creation of a task that
      was never parsed. */
  lemma PromiseIsFirstMinute(task: Task, now: int, t: int)
    requires 0 <= task.bucket < 60 && (task.status == IDLE || task.status == SKIP)
    requires match task.lastParsedAt { case Some(parsed) => parsed <= now case None => task.createdAt <= now }
    ensures NextRun(task, now) == Some(t) <==>
            OwnMinute(task, now, t) && forall u :: OwnMinute(task, now, u) ==> t <= u
  {
    var first := BucketTime(task, now) + if Reference(task) < BucketTime(task, now) then 0 else HOUR;
    MinutesOfHours(task, now, first);
    assert Reference(task) <= now;
    forall u | OwnMinute(task, now, u) ensures first <= u {
      MinutesOfHours(task, now, u);
    }
    assert OwnMinute(task, now, first);
  }

  /** A moment of the task's minute, not before this hour, and after the task was last parsed, or
      created where it never was. */
  predicate OwnMinute(task: Task, now: int, t: int) {
    && t % 3600 == 60 * task.bucket && t / 3600 >= now / 3600
    && match task.lastParsedAt { case Some(parsed) => parsed < t case None => task.createdAt < t }
  }

  lemma MinutesOfHours(task: Task, now: int, t: int)
    requires 0 <= task.bucket < 60
    ensures t % 3600 == 60 * task.bucket && t / 3600 >= now / 3600
            <==> exists k: nat :: t == BucketTime(task, now) + HOUR * k
  {
    assert HourStart(now) == now / 3600 * 3600;
    if t % 3600 == 60 * task.bucket && t / 3600 >= now / 3600 {
      var k: nat := t / 3600 - now / 3600;
      assert t == BucketTime(task, now) + HOUR * k;
    }
    forall k: nat | t == BucketTime(task, now) + HOUR * k
      ensures t % 3600 == 60 * task.bucket && t / 3600 >= now / 3600
    {
      assert t == 3600 * (now / 3600 + k) + 60 * task.bucket;
    }
  }

  /** The query in whole hours: an idle task whose minute of the hour has come, that was parsed
      (or, never parsed, created) in an earlier hour, and was not claimed in this one. */
  lemma EligibleMeans(task: Task, id: int, claims: seq<Claim>, t: int)
    ensures Eligible(task, id, claims, t) <==>
            && task.status == IDLE && task.bucket <= t % 3600 / 60
            && (match task.lastParsedAt
                case Some(parsed) => parsed / 3600 < t / 3600
                case None => task.createdAt / 3600 < t / 3600)
            && forall i :: 0 <= i < |claims| && claims[i].task == id ==> claims[i].at / 3600 < t / 3600
  {
    EarlierHour(Reference(task), t);
    forall i | 0 <= i < |claims| ensures claims[i].at < HourStart(t) <==> claims[i].at / 3600 < t / 3600 {
      EarlierHour(claims[i].at, t);
    }
  }

  lemma EarlierHour(r: int, t: int)
    ensures r < HourStart(t) <==> r / 3600 < t / 3600
  {
    assert HourStart(t) == 3600 * (t / 3600) && r == 3600 * (r / 3600) + r % 3600;
  }

  predicate NeverClaimed(claims: seq<Claim>, id: int) { forall i :: 0 <= i < |claims| ==> claims[i].task != id }

  /** As long as the task stays as it is and nobody claims it, it is due from its minute on in
      every hour after that of `created`, and at no other time; so the first time is its minute of
      the next hour. */
  ghost predicate DueFromNextHour(task: Task, id: int, created: int) {
    && (forall claims, t :: NeverClaimed(claims, id) && created <= t ==>
          (Eligible(task, id, claims, t) <==> t / 3600 > created / 3600 && t % 3600 / 60 >= task.bucket))
    && forall claims :: NeverClaimed(claims, id) ==>
         FirstEligible(task, id, claims, created, (created / 3600 + 1) * 3600 + 60 * task.bucket)
  }

  /** That is when a task that was just created is due. */
  lemma NewTaskIsDue(task: Task, id: int)
    requires 0 <= task.bucket < 60 && task.status == IDLE && task.lastParsedAt.None?
    ensures DueFromNextHour(task, id, task.createdAt)
  {
    hide Eligible;
    var created := task.createdAt;
    var first := (created / 3600 + 1) * 3600 + 60 * task.bucket;
    assert first / 3600 == created / 3600 + 1 && first % 3600 == 60 * task.bucket;
    forall claims, t | NeverClaimed(claims, id) && created <= t
      ensures Eligible(task, id, claims, t) <==> t / 3600 > created / 3600 && t % 3600 / 60 >= task.bucket
      ensures t < first ==> !Eligible(task, id, claims, t)
    {
      EligibleMeans(task, id, claims, t);
      if t < first {
        BeforeFirst(created, task.bucket, t);
      }
    }
  }

  /** The next hour's minute is the first after the hour of `created`. */
  lemma BeforeFirst(created: int, bucket: int, t: int)
    requires 0 <= bucket < 60 && t < (created / 3600 + 1) * 3600 + 60 * bucket
    ensures !(t / 3600 > created / 3600 && t % 3600 / 60 >= bucket)
  {
    assert t == t / 3600 * 3600 + t % 3600;
    if t / 3600 > created / 3600 {
      assert t / 3600 == created / 3600 + 1;
      assert t % 3600 < 60 * bucket;
    }
  }

  /** A task added at five past with bucket ten is promised for ten past and not selected then. */
  lemma FreshTaskPromisedTooEarly()
    ensures var task := Task("u", IDLE, 10, None, 300);
            NextRun(task, 300) == Some(600) && !Eligible(task, 1, [], 600)
  {
  }
}
