/** Which task stands for a channel: the duplicate check of `_process_task` and the status
    changes around it, for tasks processed one at a time. */
module Channels {
  import opened Options
  import opened Schedule

  /** The columns of a task that processing writes. */
  datatype Row = Row(status: Status, channel: Option<int>, lastParsedAt: Option<int>)

  type Table = map<int, Row>

  /** How processing goes on once the channel is known, or without it. `Stopped` is any
      exception that changes no status: before or after the channel was saved. */
  datatype Ending = Completed | Failed | Postponed | Stopped(saved: bool)

  datatype Step =
    | Add(id: int)
    | Process(id: int, channel: Option<int>, ending: Ending, now: int)

  predicate IsIdle(tasks: Table, id: int, channel: int) {
    id in tasks && tasks[id].status == IDLE && tasks[id].channel == Some(channel)
  }

  predicate Duplicate(tasks: Table, id: int, channel: int) {
    exists other :: other in tasks && other != id && IsIdle(tasks, other, channel)
  }

  predicate Possible(tasks: Table, step: Step) {
    match step
    case Add(id) => id !in tasks
    case Process(id, channel, ending, _) => channel.None? ==> !ending.Completed? && ending != Stopped(true)
  }

  /** `change_task_status`: the channel is overwritten even when none is given. */
  function Change(tasks: Table, id: int, status: Status, channel: Option<int>, now: int): Table {
    if id in tasks then tasks[id := Row(status, channel, Some(now))] else tasks
  }

  function Save(tasks: Table, id: int, channel: int): Table
    requires id in tasks
  {
    tasks[id := tasks[id].(channel := Some(channel))]
  }

  function End(tasks: Table, id: int, channel: Option<int>, ending: Ending, now: int): Table
    requires id in tasks && (channel.None? ==> !ending.Completed? && ending != Stopped(true))
  {
    match ending
    case Completed => Save(tasks, id, channel.value)
    case Failed => Change(tasks, id, ERROR, None, now)
    case Postponed => Change(tasks, id, IDLE, None, now)
    case Stopped(saved) => if saved then Save(tasks, id, channel.value) else tasks
  }

  function Apply(tasks: Table, step: Step): Table
    requires Possible(tasks, step)
  {
    match step
    case Add(id) => tasks[id := Row(IDLE, None, None)]
    case Process(id, channel, ending, now) =>
      if id !in tasks || tasks[id].status != IDLE then tasks
      else if channel.Some? && Duplicate(tasks, id, channel.value) then Change(tasks, id, EXISTS, channel, now)
      else End(tasks, id, channel, ending, now)
  }

  predicate Runs(tasks: Table, steps: seq<Step>)
    decreases steps
  {
    steps == [] || (Possible(tasks, steps[0]) && Runs(Apply(tasks, steps[0]), steps[1..]))
  }

  function Exec(tasks: Table, steps: seq<Step>): Table
    requires Runs(tasks, steps)
    decreases steps
  {
    if steps == [] then tasks else Exec(Apply(tasks, steps[0]), steps[1..])
  }

  class TaskTable {
    var tasks: Table

    method ChangeTaskStatus(id: int, status: Status, channel: Option<int>, now: int)
      modifies this
      ensures tasks == Change(old(tasks), id, status, channel, now)
    {
      if id !in tasks {
        return;
      }
      var task := tasks[id];
      tasks := tasks[id := task.(status := status, channel := channel, lastParsedAt := Some(now))];
    }

    /** The scan over the tasks that the channel query returned. */
    method FindDuplicate(id: int, channel: int, found: seq<int>) returns (duplicate: bool)
      requires forall other :: other in tasks && tasks[other].channel == Some(channel) <==> other in found
      ensures duplicate == Duplicate(tasks, id, channel)
    {
      var i := 0;
      while i < |found|
        invariant 0 <= i <= |found|
        invariant forall j :: 0 <= j < i ==> !(found[j] != id && IsIdle(tasks, found[j], channel))
      {
        assert found[i] in found;
        var other := tasks[found[i]];
        if other.channel.Some? && other.channel.value == channel && found[i] != id && other.status == IDLE {
          return true;
        }
        i := i + 1;
      }
      duplicate := false;
    }

    /** One claimed task, from the status check to the error handler; `found` is what the
        channel query returns when it is reached. */
    method ProcessTask(id: int, channel: Option<int>, found: seq<int>, ending: Ending, now: int)
      requires Possible(tasks, Process(id, channel, ending, now))
      requires channel.Some? ==> forall other :: other in tasks && tasks[other].channel == channel <==> other in found
      modifies this
      ensures tasks == Apply(old(tasks), Process(id, channel, ending, now))
      ensures tasks.Keys == old(tasks).Keys && forall other :: other in tasks && other != id ==>
              tasks[other] == old(tasks)[other]
      ensures id in tasks && old(tasks)[id].status != IDLE ==> tasks[id] == old(tasks)[id]
      ensures id in tasks && old(tasks)[id].status == IDLE ==>
        var taken :=
          && channel.Some?
          && exists other ::
               other in old(tasks) && other != id && old(tasks)[other].status == IDLE
               && old(tasks)[other].channel == channel;
        && (tasks[id].status == EXISTS <==> taken)
        && (tasks[id].status == ERROR <==> !taken && ending == Failed)
        && (tasks[id].status == IDLE <==> !taken && ending != Failed)
        && tasks[id].channel == (if taken || ending == Completed || ending == Stopped(true) then channel
                                 else if ending == Stopped(false) then old(tasks)[id].channel else None)
        && tasks[id].lastParsedAt == (if taken || ending == Failed || ending == Postponed then Some(now)
                                      else old(tasks)[id].lastParsedAt)
    {
      if id !in tasks || tasks[id].status != IDLE {
        return;
      }
      if channel.Some? {
        var duplicate := FindDuplicate(id, channel.value, found);
        if duplicate {
          ChangeTaskStatus(id, EXISTS, channel, now);
          return;
        }
      }
      match ending {
        case Completed => tasks := tasks[id := tasks[id].(channel := Some(channel.value))];
        case Failed => ChangeTaskStatus(id, ERROR, None, now);
        case Postponed => ChangeTaskStatus(id, IDLE, None, now);
        case Stopped(saved) =>
          if saved {
            tasks := tasks[id := tasks[id].(channel := Some(channel.value))];
          }
      }
    }
  }

  // ---------- One idle task per channel ----------

  ghost predicate OneIdlePerChannel(tasks: Table) {
    forall i, j, c :: IsIdle(tasks, i, c) && IsIdle(tasks, j, c) ==> i == j
  }

  /** The save keeps the channels unique exactly if the check would still pass: what serial
      processing guarantees, and two workers between check and save do not. */
  lemma SaveKeepsIff(tasks: Table, id: int, channel: int)
    requires OneIdlePerChannel(tasks) && id in tasks && tasks[id].status == IDLE
    ensures OneIdlePerChannel(Save(tasks, id, channel)) <==> !Duplicate(tasks, id, channel)
  {
    var after := Save(tasks, id, channel);
    if Duplicate(tasks, id, channel) {
      var other :| other in tasks && other != id && IsIdle(tasks, other, channel);
      assert IsIdle(after, id, channel) && IsIdle(after, other, channel);
    } else {
      forall i, j, c | IsIdle(after, i, c) && IsIdle(after, j, c) ensures i == j {
        if i != id && j != id {
          assert IsIdle(tasks, i, c) && IsIdle(tasks, j, c);
        } else if i != j {
          var other := if i == id then j else i;
          assert IsIdle(tasks, other, c) && c == channel;
        }
      }
    }
  }

  lemma ChangeKeeps(tasks: Table, id: int, status: Status, channel: Option<int>, now: int)
    requires OneIdlePerChannel(tasks) && (status == IDLE ==> channel.None?)
    ensures OneIdlePerChannel(Change(tasks, id, status, channel, now))
  {
    forall i, c | IsIdle(Change(tasks, id, status, channel, now), i, c) ensures IsIdle(tasks, i, c) {
    }
  }

  predicate Final(status: Status) { status == EXISTS || status == ERROR }

  /** Every step keeps one idle task per channel, never brings a task back from a final
      status, and marks a task as existing only next to an idle task of the same channel. */
  lemma StepKeeps(tasks: Table, step: Step)
    requires OneIdlePerChannel(tasks) && Possible(tasks, step)
    ensures var after := Apply(tasks, step);
            && OneIdlePerChannel(after)
            && (forall id :: id in tasks && Final(tasks[id].status) ==> id in after && after[id] == tasks[id])
            && forall id ::
                 id in after && after[id].status == EXISTS && (id !in tasks || tasks[id].status != EXISTS) ==>
                 after[id].channel.Some? && Duplicate(after, id, after[id].channel.value)
  {
    var after := Apply(tasks, step);
    match step
    case Add(id) =>
      forall i, c | IsIdle(after, i, c) ensures IsIdle(tasks, i, c) {
      }
    case Process(id, channel, ending, now) =>
      ChangeKeeps(tasks, id, EXISTS, channel, now);
      ChangeKeeps(tasks, id, ERROR, None, now);
      ChangeKeeps(tasks, id, IDLE, None, now);
      if id in tasks && tasks[id].status == IDLE && channel.Some? {
        SaveKeepsIff(tasks, id, channel.value);
        if Duplicate(tasks, id, channel.value) {
          var other :| other in tasks && other != id && IsIdle(tasks, other, channel.value);
          assert IsIdle(after, other, channel.value);
        }
      }
  }

  lemma {:induction false} RunKeeps(tasks: Table, steps: seq<Step>)
    requires OneIdlePerChannel(tasks) && Runs(tasks, steps)
    ensures OneIdlePerChannel(Exec(tasks, steps))
    ensures forall id :: id in tasks && Final(tasks[id].status) ==>
            id in Exec(tasks, steps) && Exec(tasks, steps)[id] == tasks[id]
    decreases steps
  {
    if steps != [] {
      StepKeeps(tasks, steps[0]);
      RunKeeps(Apply(tasks, steps[0]), steps[1..]);
    }
  }

  /** In every reachable state, at most one idle task carries each channel, and a task that
      was ever marked as existing or as an error stays exactly as it was marked. */
  lemma ChannelsStayUnique(before: seq<Step>, after: seq<Step>, id: int)
    requires Runs(map[], before) && Runs(Exec(map[], before), after)
    ensures OneIdlePerChannel(Exec(Exec(map[], before), after))
    ensures id in Exec(map[], before) && Final(Exec(map[], before)[id].status) ==>
              id in Exec(Exec(map[], before), after) && Exec(Exec(map[], before), after)[id] == Exec(map[], before)[id]
  {
    RunKeeps(map[], before);
    RunKeeps(Exec(map[], before), after);
  }

  /** Two checks before either save leave two idle tasks for one channel. */
  lemma InterleavedChecksBreak()
    ensures var tasks: Table := map[1 := Row(IDLE, None, None), 2 := Row(IDLE, None, None)];
            && OneIdlePerChannel(tasks) && !Duplicate(tasks, 1, 7) && !Duplicate(tasks, 2, 7)
            && !OneIdlePerChannel(Save(Save(tasks, 1, 7), 2, 7))
  {
    var tasks: Table := map[1 := Row(IDLE, None, None), 2 := Row(IDLE, None, None)];
    var after := Save(Save(tasks, 1, 7), 2, 7);
    assert IsIdle(after, 1, 7) && IsIdle(after, 2, 7);
  }
}
