/**
 The concurrency limiter. Tasks are submitted and finish in any interleaving; a task is
 the promise-returning function handed in, so a finish comes exactly once, later, and for
 a task that has started.
*/
module ConcurrencyLimiters {
  /** The identity of a submitted task. */
  type Task = nat

  /** The limiter's two variables, and the history they stand for. */
  datatype Tasks = Tasks(
    active: int,
    queue: seq<Task>,
    submitted: seq<Task>,
    started: seq<Task>,
    running: set<Task>,
    finished: seq<Task>)

  const NONE := Tasks(0, [], [], [], {}, [])

  function Start(s: Tasks, t: Task): Tasks {
    s.(active := s.active + 1, started := s.started + [t], running := s.running + {t})
  }

  function AfterSubmit(limit: int, s: Tasks, t: Task): Tasks {
    var now := s.(submitted := s.submitted + [t]);
    if s.active < limit then Start(now, t) else now.(queue := s.queue + [t])
  }

  function AfterFinish(limit: int, s: Tasks, t: Task): Tasks {
    var now := s.(active := s.active - 1, running := s.running - {t}, finished := s.finished + [t]);
    if s.queue != [] && now.active < limit then Start(now, s.queue[0]).(queue := s.queue[1..]) else now
  }

  function Slots(limit: int): nat {
    if limit < 0 then 0 else limit
  }

  function Min(a: int, b: int): int {
    if a < b then a else b
  }

  ghost predicate Distinct(ts: seq<Task>) {
    forall i, j :: 0 <= i < j < |ts| ==> ts[i] != ts[j]
  }

  /** What holds between any two events. */
  ghost predicate Consistent(limit: int, s: Tasks) {
    && s.active == |s.running| == |s.started| - |s.finished|
    && s.active <= Slots(limit)
    && (s.queue != [] ==> s.active == Slots(limit))
    && s.started + s.queue == s.submitted
    && Distinct(s.submitted)
    && (forall t :: t in s.running <==> t in s.started && t !in s.finished)
    && (forall t :: t in s.finished ==> t in s.started)
  }

  lemma SubmitKeeps(limit: int, s: Tasks, t: Task)
    requires Consistent(limit, s) && t !in s.submitted
    ensures Consistent(limit, AfterSubmit(limit, s, t))
    ensures s.queue != [] ==> AfterSubmit(limit, s, t).started == s.started
  {
    assert t !in s.started && t !in s.finished by {
      assert forall u :: u in s.started ==> u in s.started + s.queue;
    }
    assert s.started + s.queue + [t] == s.started + (s.queue + [t]);
    assert |s.running + {t}| == |s.running| + 1;
    if s.active < limit {
      assert s.queue == [];
      assert s.started + [t] + s.queue == s.submitted + [t];
    }
  }

  /** A finished task hands its slot to the task that waited longest. */
  lemma FinishKeeps(limit: int, s: Tasks, t: Task)
    requires Consistent(limit, s) && t in s.running
    ensures Consistent(limit, AfterFinish(limit, s, t))
    ensures AfterFinish(limit, s, t).started == s.started + s.queue[..Min(1, |s.queue|)]
  {
    assert |s.running - {t}| == |s.running| - 1;
    if s.queue != [] {
      var next := s.queue[0];
      assert next == s.submitted[|s.started|];
      assert next !in s.started by {
        assert forall i :: 0 <= i < |s.started| ==> s.started[i] == s.submitted[i];
      }
      assert |s.running - {t} + {next}| == |s.running|;
      assert s.started + [next] + s.queue[1..] == s.started + s.queue;
    }
  }

  class Limiter {
    const limit: int
    var active: int
    var queue: seq<Task>
    ghost var past: Tasks

    ghost predicate Valid()
      reads this
    {
      Consistent(limit, past) && past.active == active && past.queue == queue
    }

    constructor (limit: int)
      ensures Valid() && this.limit == limit && past == NONE
    {
      this.limit := limit;
      active, queue, past := 0, [], NONE;
    }

    method Submit(t: Task)
      requires Valid() && t !in past.submitted
      modifies this
      ensures Valid() && past == AfterSubmit(limit, old(past), t)
    {
      hide Consistent;
      SubmitKeeps(limit, past, t);
      past := AfterSubmit(limit, past, t);
      if active < limit {
        active := active + 1;
      } else {
        queue := queue + [t];
      }
    }

    /** The `finally` callback of a running task. */
    method Finish(t: Task)
      requires Valid() && t in past.running
      modifies this
      ensures Valid() && past == AfterFinish(limit, old(past), t)
    {
      hide Consistent;
      FinishKeeps(limit, past, t);
      past := AfterFinish(limit, past, t);
      active := active - 1;
      Next();
    }

    method Next()
      modifies this`active, this`queue
      ensures (active, queue) == if |old(queue)| > 0 && old(active) < limit then (old(active) + 1, old(queue)[1..])
                                 else (old(active), old(queue))
    {
      if |queue| > 0 && active < limit {
        active := active + 1;
        queue := queue[1..];
      }
    }
  }

  // ---- Every interleaving ----

  datatype Event = Submitted(t: Task) | Finished(t: Task)

  function After(limit: int, events: seq<Event>): Tasks {
    if events == [] then NONE
    else
      var s := After(limit, events[..|events|-1]);
      match events[|events|-1]
      case Submitted(t) => AfterSubmit(limit, s, t)
      case Finished(t) => AfterFinish(limit, s, t)
  }

  /** Each task is submitted once, and only running tasks finish. */
  ghost predicate Possible(limit: int, events: seq<Event>) {
    events == [] ||
    (var front, e := events[..|events|-1], events[|events|-1];
     && Possible(limit, front)
     && (if e.Submitted? then e.t !in After(limit, front).submitted else e.t in After(limit, front).running))
  }

  /** The tasks of the submit events, in order. */
  function Submissions(events: seq<Event>): seq<Task> {
    if events == [] then []
    else Submissions(events[..|events|-1]) + if events[|events|-1].Submitted? then [events[|events|-1].t] else []
  }

  function Completions(events: seq<Event>): seq<Task> {
    if events == [] then []
    else Completions(events[..|events|-1]) + if events[|events|-1].Finished? then [events[|events|-1].t] else []
  }

  lemma {:induction false} StaysConsistent(limit: int, events: seq<Event>)
    requires Possible(limit, events)
    ensures Consistent(limit, After(limit, events))
    ensures After(limit, events).submitted == Submissions(events)
    ensures After(limit, events).finished == Completions(events)
  {
    hide Consistent;
    if events == [] {
      EmptyConsistent(limit);
    } else {
      var front, e := events[..|events|-1], events[|events|-1];
      StaysConsistent(limit, front);
      if e.Submitted? {
        SubmitKeeps(limit, After(limit, front), e.t);
      } else {
        FinishKeeps(limit, After(limit, front), e.t);
      }
    }
  }

  lemma EmptyConsistent(limit: int)
    ensures Consistent(limit, NONE)
  {
  }

  /** In every interleaving the limiter's state is fixed by what was submitted and how many
      tasks have finished, whatever the order: exactly min(limit, unfinished) tasks run, and
      the started tasks are the first (finished + limit) submissions, in submission order. */
  lemma ScheduleIsForced(limit: int, events: seq<Event>)
    requires Possible(limit, events)
    ensures var s, subs, done := After(limit, events), Submissions(events), |Completions(events)|;
      && s.active == |s.running| == Min(Slots(limit), |subs| - done)
      && 0 <= done <= |subs|
      && s.started == subs[..Min(done + Slots(limit), |subs|)]
      && s.queue == subs[Min(done + Slots(limit), |subs|)..]
  {
    hide After, Possible, Submissions, Completions;
    StaysConsistent(limit, events);
    var s := After(limit, events);
    assert s.started == s.submitted[..|s.started|] && s.queue == s.submitted[|s.started|..];
  }

  /** No task starts twice, and with a positive limit none is lost: once everything that
      started has finished, everything submitted has been run. */
  lemma EachRunsOnce(limit: int, events: seq<Event>)
    requires Possible(limit, events)
    ensures Distinct(After(limit, events).started)
    ensures limit > 0 && After(limit, events).running == {} ==> After(limit, events).started == Submissions(events)
    ensures limit <= 0 ==> After(limit, events).started == []
  {
    hide After, Possible, Submissions, Completions;
    StaysConsistent(limit, events);
    ScheduleIsForced(limit, events);
    var s := After(limit, events);
    assert forall i :: 0 <= i < |s.started| ==> s.started[i] == s.submitted[i];
    if limit <= 0 {
      NothingStarts(limit, events);
    }
  }

  lemma {:induction false} NothingStarts(limit: int, events: seq<Event>)
    requires limit <= 0 && Possible(limit, events)
    ensures Completions(events) == [] && After(limit, events).running == {}
  {
    if events != [] {
      NothingStarts(limit, events[..|events|-1]);
      StaysConsistent(limit, events[..|events|-1]);
    }
  }
}
