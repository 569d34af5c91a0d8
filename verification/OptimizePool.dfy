/**
 The asynchronous optimisation pool: tasks in a table, jobs in a bounded executor, and a stale
 rule that may fail a task whose job is still alive. Each database save and each submission is
 one atomic step; the clock never runs backwards.
 */
module OptimizePool {
  import opened Options

  datatype Status = Pending | Running | Success | Failed

  /** `key` stands for (instance, database, fingerprint). */
  datatype Task = Task(key: int, status: Status, createdAt: int, finishedAt: Option<int>)

  /** A job on a worker thread: before, or after, it has saved its success. */
  datatype Phase = Started | Saved

  /** `marked` is history: the tasks ever failed by the stale rule. */
  datatype State = State(
    workers: nat,
    backlog: nat,
    free: int,
    queue: seq<nat>,
    jobs: map<nat, Phase>,
    tasks: seq<Task>,
    marked: set<nat>,
    clock: int)

  const STALE_MICROSECONDS := 10 * 60 * 1_000_000

  predicate IsActive(t: Task) {
    t.status == Pending || t.status == Running
  }

  predicate IsStale(t: Task, now: int) {
    IsActive(t) && now - t.createdAt > STALE_MICROSECONDS
  }

  /** The row `order_by("-created_at").first()` may return among the active tasks of one key. */
  ghost predicate IsNewest(tasks: seq<Task>, key: int, i: nat) {
    && i < |tasks| && tasks[i].key == key && IsActive(tasks[i])
    && forall j :: 0 <= j < |tasks| && tasks[j].key == key && IsActive(tasks[j]) ==>
         tasks[j].createdAt <= tasks[i].createdAt
  }

  ghost predicate NoneActive(tasks: seq<Task>, key: int) {
    forall j :: 0 <= j < |tasks| && tasks[j].key == key ==> !IsActive(tasks[j])
  }

  /** What the query for a pending or running task of the key may find. */
  ghost predicate MayFind(tasks: seq<Task>, key: int, found: Option<nat>) {
    if found.Some? then IsNewest(tasks, key, found.value) else NoneActive(tasks, key)
  }

  datatype Event =
    | Submit(now: int, key: int, cacheHit: bool, found: Option<nat>, accepted: bool)
    | Start(now: int, readable: bool)           // a worker takes the next job; its first read or save may fail
    | SaveSuccess(now: int, id: nat)
    | JobFails(now: int, id: nat)               // the work raised, or something after the success was saved did
    | JobDies(now: int, id: nat)                // the job ends without saving anything more
    | JobEnds(now: int, id: nat)
    | Poll(now: int, id: nat)
    | Restart(now: int)                         // the web process restarts: jobs and slots are new, rows remain

  ghost predicate Enabled(s: State, e: Event) {
    e.now >= s.clock &&
    match e
    case Submit(_, key, hit, found, _) => hit || MayFind(s.tasks, key, found)
    case Start(_, _) => s.queue != [] && |s.jobs| < s.workers && s.queue[0] < |s.tasks|
    case SaveSuccess(_, id) => id in s.jobs && s.jobs[id] == Started && id < |s.tasks|
    case JobFails(_, id) => id in s.jobs && id < |s.tasks|
    case JobDies(_, id) => id in s.jobs
    case JobEnds(_, id) => id in s.jobs && s.jobs[id] == Saved
    case Poll(_, id) => id < |s.tasks|
    case Restart(_) => true
  }

  function Fail(s: State, id: nat, now: int): State
    requires id < |s.tasks|
  {
    s.(tasks := s.tasks[id := s.tasks[id].(status := Failed, finishedAt := Some(now))])
  }

  /** `_mark_stale_optimize_task_failed`. */
  function MarkStale(s: State, id: nat, now: int): State
    requires id < |s.tasks|
  {
    if IsStale(s.tasks[id], now) then Fail(s, id, now).(marked := s.marked + {id}) else s
  }

  /** Creating the row, taking a slot without waiting, and handing the job over. */
  function CreateAndQueue(s: State, key: int, now: int, accepted: bool): State {
    var id := |s.tasks|;
    var created := s.(tasks := s.tasks + [Task(key, Pending, now, None)]);
    if s.free <= 0 then Fail(created, id, now)
    else if accepted then created.(free := s.free - 1, queue := s.queue + [id])
    else created.(tasks := s.tasks + [Task(key, Failed, now, None)])
  }

  function Release(s: State, id: nat): State {
    s.(jobs := s.jobs - {id}, free := s.free + 1)
  }

  function Next(s: State, e: Event): State
    requires Enabled(s, e)
  {
    var t := s.(clock := e.now);
    match e
    case Submit(now, key, hit, found, accepted) =>
      if hit then t
      else if found.Some? && !IsStale(s.tasks[found.value], now) then t
      else CreateAndQueue(if found.Some? then MarkStale(t, found.value, now) else t, key, now, accepted)
    case Start(_, readable) =>
      var id := s.queue[0];
      if readable then
        t.(queue := s.queue[1..], jobs := s.jobs[id := Started],
           tasks := s.tasks[id := s.tasks[id].(status := Running)])
      else t.(queue := s.queue[1..], free := s.free + 1)
    case SaveSuccess(now, id) =>
      t.(jobs := s.jobs[id := Saved], tasks := s.tasks[id := s.tasks[id].(status := Success, finishedAt := Some(now))])
    case JobFails(now, id) => Release(Fail(t, id, now), id)
    case JobDies(_, id) => Release(t, id)
    case JobEnds(_, id) => Release(t, id)
    case Poll(now, id) => MarkStale(t, id, now)
    case Restart(_) => t.(queue := [], jobs := map[], free := s.workers + s.backlog)
  }

  function Initial(workers: nat, backlog: nat, clock: int): State {
    State(workers, backlog, workers + backlog, [], map[], [], {}, clock)
  }

  // ---- The invariant -----------------------------------------------------------------------------

  /** Every slot is free, or held by a queued job, or held by an executing one. */
  ghost predicate SlotsConserved(s: State) {
    && s.free + |s.queue| + |s.jobs| == s.workers + s.backlog
    && 0 <= s.free <= s.workers + s.backlog
    && |s.jobs| <= s.workers
  }

  ghost predicate JobsAreTasks(s: State) {
    && (forall k :: 0 <= k < |s.queue| ==> s.queue[k] < |s.tasks| && s.queue[k] !in s.jobs)
    && (forall k, m :: 0 <= k < m < |s.queue| ==> s.queue[k] != s.queue[m])
    && (forall id :: id in s.jobs ==> id < |s.tasks|)
  }

  /** What a live job implies about its task, unless the stale rule interfered. */
  ghost predicate JobsMatchStatus(s: State) {
    && (forall id :: id in s.queue && id < |s.tasks| ==>
          s.tasks[id].status == Pending || (id in s.marked && s.tasks[id].status == Failed))
    && (forall id :: id in s.jobs && id < |s.tasks| && s.jobs[id] == Started ==>
          s.tasks[id].status == Running || (id in s.marked && s.tasks[id].status == Failed))
    && (forall id :: id in s.jobs && id < |s.tasks| && s.jobs[id] == Saved ==> s.tasks[id].status == Success)
  }

  ghost predicate MarksAreOld(s: State) {
    && (forall id :: id in s.marked ==> id < |s.tasks| && s.tasks[id].createdAt + STALE_MICROSECONDS < s.clock)
    && (forall id :: 0 <= id < |s.tasks| ==> s.tasks[id].createdAt <= s.clock)
  }

  /** The task is active, or its job may still make it so. */
  ghost predicate MayBeActive(s: State, id: nat) {
    id < |s.tasks| && (IsActive(s.tasks[id]) || id in s.queue || (id in s.jobs && s.jobs[id] == Started))
  }

  ghost predicate IsHolder(s: State, id: nat) {
    MayBeActive(s, id) && id !in s.marked
  }

  /** Beside a task of a key never marked stale, any other that is or may become active was marked and is older. */
  ghost predicate HoldersAreAlone(s: State) {
    forall i: nat, j: nat ::
      IsHolder(s, j) && MayBeActive(s, i) && i != j && s.tasks[i].key == s.tasks[j].key ==>
        i in s.marked && s.tasks[i].createdAt < s.tasks[j].createdAt
  }

  ghost predicate Inv(s: State) {
    SlotsConserved(s) && JobsAreTasks(s) && JobsMatchStatus(s) && MarksAreOld(s) && HoldersAreAlone(s)
  }

  lemma InitialInv(workers: nat, backlog: nat, clock: int)
    ensures Inv(Initial(workers, backlog, clock))
  {
  }

  lemma RemovingOne<K, V>(m: map<K, V>, k: K)
    requires k in m
    ensures |m - {k}| == |m| - 1
  {
    assert (m - {k}).Keys == m.Keys - {k};
    assert |m.Keys| == |m| && |(m - {k}).Keys| == |m - {k}|;
  }

  lemma AddingOne<K, V>(m: map<K, V>, k: K, v: V)
    ensures |m[k := v]| == if k in m then |m| else |m| + 1
  {
    assert m[k := v].Keys == m.Keys + {k};
    assert |m.Keys| == |m| && |m[k := v].Keys| == |m[k := v]|;
    if k in m {
      assert m.Keys + {k} == m.Keys;
    }
  }

  /** Steps that create no task and make none more alive keep holders alone. */
  lemma AloneFrom(s: State, t: State)
    requires HoldersAreAlone(s)
    requires |t.tasks| == |s.tasks| && s.marked <= t.marked
    requires forall k :: 0 <= k < |s.tasks| ==>
               t.tasks[k].key == s.tasks[k].key && t.tasks[k].createdAt == s.tasks[k].createdAt
    requires forall i: nat :: MayBeActive(t, i) ==> MayBeActive(s, i)
    ensures HoldersAreAlone(t)
  {
    forall i: nat, j: nat | IsHolder(t, j) && MayBeActive(t, i) && i != j && t.tasks[i].key == t.tasks[j].key
      ensures i in t.marked && t.tasks[i].createdAt < t.tasks[j].createdAt
    {
      assert IsHolder(s, j) && MayBeActive(s, i);
    }
  }

  lemma ReleaseKeepsInv(s: State, id: nat)
    requires Inv(s) && id in s.jobs
    ensures Inv(Release(s, id))
  {
    RemovingOne(s.jobs, id);
    AloneFrom(s, Release(s, id));
  }

  lemma TickKeepsInv(s: State, now: int)
    requires Inv(s) && now >= s.clock
    ensures Inv(s.(clock := now))
  {
    AloneFrom(s, s.(clock := now));
  }

  lemma MarkKeepsStatus(s: State, id: nat)
    requires JobsAreTasks(s) && JobsMatchStatus(s) && MarksAreOld(s) && id < |s.tasks|
    ensures var t := MarkStale(s, id, s.clock);
            JobsAreTasks(t) && JobsMatchStatus(t) && MarksAreOld(t)
  {
  }

  /** Failing a task by the stale rule. */
  lemma MarkKeepsInv(s: State, id: nat)
    requires Inv(s) && id < |s.tasks|
    ensures Inv(MarkStale(s, id, s.clock))
  {
    MarkKeepsStatus(s, id);
    AloneFrom(s, MarkStale(s, id, s.clock));
  }

  /** After the check of a submission nothing of the key that may be active is unmarked. */
  lemma NoHolderLeft(s: State, key: int, found: Option<nat>)
    requires Inv(s)
    requires MayFind(s.tasks, key, found)
    requires found.Some? ==> IsStale(s.tasks[found.value], s.clock)
    ensures var t := if found.Some? then MarkStale(s, found.value, s.clock) else s;
            forall j: nat :: IsHolder(t, j) ==> t.tasks[j].key != key
  {
    forall j: nat | IsHolder(s, j) && s.tasks[j].key == key
      ensures found == Some(j)
    {
      assert IsActive(s.tasks[j]);
      assert found.Some? && MayBeActive(s, found.value);
    }
  }

  lemma CreateKeepsAlone(s: State, key: int, accepted: bool)
    requires Inv(s)
    requires forall j: nat :: IsHolder(s, j) ==> s.tasks[j].key != key
    ensures HoldersAreAlone(CreateAndQueue(s, key, s.clock, accepted))
  {
    var t := CreateAndQueue(s, key, s.clock, accepted);
    var id := |s.tasks|;
    assert forall j :: 0 <= j < id ==> t.tasks[j] == s.tasks[j];
    forall i: nat | i < id && MayBeActive(t, i)
      ensures MayBeActive(s, i)
    {
    }
    forall i: nat, j: nat | IsHolder(t, j) && MayBeActive(t, i) && i != j && t.tasks[i].key == t.tasks[j].key
      ensures i in t.marked && t.tasks[i].createdAt < t.tasks[j].createdAt
    {
      assert (i < id ==> MayBeActive(s, i)) && (j < id ==> IsHolder(s, j));
    }
  }

  lemma CreateKeepsSlots(s: State, key: int, accepted: bool)
    requires SlotsConserved(s) && JobsAreTasks(s)
    ensures var t := CreateAndQueue(s, key, s.clock, accepted);
            SlotsConserved(t) && JobsAreTasks(t)
  {
  }

  lemma CreateKeepsStatus(s: State, key: int, accepted: bool)
    requires JobsAreTasks(s) && JobsMatchStatus(s) && MarksAreOld(s)
    ensures var t := CreateAndQueue(s, key, s.clock, accepted);
            JobsMatchStatus(t) && MarksAreOld(t)
  {
    var t := CreateAndQueue(s, key, s.clock, accepted);
    assert forall j :: 0 <= j < |s.tasks| ==> t.tasks[j] == s.tasks[j];
  }

  /** A submission that is not turned away: mark the stale task found, then create and queue a new one. */
  lemma SubmitKeepsInv(s: State, key: int, found: Option<nat>, accepted: bool)
    requires Inv(s) && MayFind(s.tasks, key, found)
    requires found.Some? ==> IsStale(s.tasks[found.value], s.clock)
    ensures Inv(CreateAndQueue(if found.Some? then MarkStale(s, found.value, s.clock) else s, key, s.clock, accepted))
  {
    NoHolderLeft(s, key, found);
    if found.Some? {
      MarkKeepsInv(s, found.value);
    }
    var t := if found.Some? then MarkStale(s, found.value, s.clock) else s;
    CreateKeepsAlone(t, key, accepted);
    CreateKeepsSlots(t, key, accepted);
    CreateKeepsStatus(t, key, accepted);
  }

  lemma StartKeepsInv(s: State, readable: bool)
    requires Inv(s) && s.queue != [] && |s.jobs| < s.workers && s.queue[0] < |s.tasks|
    ensures Enabled(s, Start(s.clock, readable)) && Inv(Next(s, Start(s.clock, readable)))
  {
    var id := s.queue[0];
    AddingOne(s.jobs, id, Started);
    var t := Next(s, Start(s.clock, readable));
    assert forall k :: 0 <= k < |t.queue| ==> t.queue[k] == s.queue[k + 1];
    forall i: nat | MayBeActive(t, i)
      ensures MayBeActive(s, i)
    {
    }
    AloneFrom(s, t);
  }

  lemma SuccessKeepsInv(s: State, id: nat)
    requires Inv(s) && Enabled(s, SaveSuccess(s.clock, id))
    ensures Inv(Next(s, SaveSuccess(s.clock, id)))
  {
    AddingOne(s.jobs, id, Saved);
    AloneFrom(s, Next(s, SaveSuccess(s.clock, id)));
  }

  lemma FailKeepsInv(s: State, id: nat)
    requires Inv(s) && Enabled(s, JobFails(s.clock, id))
    ensures Inv(Next(s, JobFails(s.clock, id)))
  {
    RemovingOne(s.jobs, id);
    AloneFrom(s, Next(s, JobFails(s.clock, id)));
  }

  lemma RestartKeepsInv(s: State)
    requires Inv(s)
    ensures Inv(Next(s, Restart(s.clock)))
  {
    AloneFrom(s, Next(s, Restart(s.clock)));
  }

  lemma SubmitStepKeepsInv(s: State, e: Event)
    requires Inv(s) && Enabled(s, e) && e.Submit?
    ensures Inv(Next(s, e))
  {
    TickKeepsInv(s, e.now);
    if !e.cacheHit && (e.found.None? || IsStale(s.tasks[e.found.value], e.now)) {
      SubmitKeepsInv(s.(clock := e.now), e.key, e.found, e.accepted);
    }
  }

  lemma StartStepKeepsInv(s: State, e: Event)
    requires Inv(s) && Enabled(s, e) && e.Start?
    ensures Inv(Next(s, e))
  {
    TickKeepsInv(s, e.now);
    StartKeepsInv(s.(clock := e.now), e.readable);
    assert Next(s, e) == Next(s.(clock := e.now), Start(e.now, e.readable));
  }

  /** Every step keeps the invariant. */
  lemma StepKeepsInv(s: State, e: Event)
    requires Inv(s) && Enabled(s, e)
    ensures Inv(Next(s, e))
  {
    var t := s.(clock := e.now);
    TickKeepsInv(s, e.now);
    match e
    case Submit(_, _, _, _, _) => SubmitStepKeepsInv(s, e);
    case Start(_, _) => StartStepKeepsInv(s, e);
    case SaveSuccess(_, id) => SuccessKeepsInv(t, id);
    case JobFails(_, id) => FailKeepsInv(t, id);
    case JobDies(_, id) => ReleaseKeepsInv(t, id);
    case JobEnds(_, id) => ReleaseKeepsInv(t, id);
    case Poll(_, id) => MarkKeepsInv(t, id);
    case Restart(_) => RestartKeepsInv(t);
  }

  // ---- Runs --------------------------------------------------------------------------------------

  /** The states along a run from a freshly started pool. */
  ghost predicate IsRun(states: seq<State>, events: seq<Event>) {
    && |states| == |events| + 1
    && (exists w: nat, b: nat, c :: states[0] == Initial(w, b, c))
    && forall k :: 0 <= k < |events| ==> Enabled(states[k], events[k]) && states[k + 1] == Next(states[k], events[k])
  }

  lemma {:induction false} RunKeepsInv(states: seq<State>, events: seq<Event>, k: nat)
    requires IsRun(states, events) && k < |states|
    ensures Inv(states[k])
  {
    if k == 0 {
      var w: nat, b: nat, c :| states[0] == Initial(w, b, c);
      InitialInv(w, b, c);
    } else {
      RunKeepsInv(states, events, k - 1);
      StepKeepsInv(states[k - 1], events[k - 1]);
    }
  }

  /** In every reachable state free slots, queued jobs and executing jobs add up, and the semaphore is within bounds. */
  lemma SlotsAreConserved(states: seq<State>, events: seq<Event>, k: nat)
    requires IsRun(states, events) && k < |states|
    ensures var s := states[k];
            && s.free + |s.queue| + |s.jobs| == s.workers + s.backlog
            && 0 <= s.free <= s.workers + s.backlog && |s.jobs| <= s.workers
  {
    RunKeepsInv(states, events, k);
  }

  /** The jobs that hold a slot. */
  ghost function Live(s: State): set<nat> {
    (set id | id in s.queue) + s.jobs.Keys
  }

  /** The job that a step other than a restart ends, if it ends one. */
  function Leaver(s: State, e: Event): Option<nat> {
    match e
    case Start(_, readable) => if readable || s.queue == [] then None else Some(s.queue[0])
    case JobFails(_, id) => Some(id)
    case JobDies(_, id) => Some(id)
    case JobEnds(_, id) => Some(id)
    case _ => None
  }

  /** One job gives its slot back, or none does. */
  ghost predicate SlotsMove(s: State, t: State, leaver: Option<nat>) {
    match leaver
    case Some(id) => id in Live(s) && Live(t) == Live(s) - {id} && t.free == s.free + 1
    case None => Live(s) <= Live(t) && t.free <= s.free
  }

  lemma RestOfQueue(queue: seq<nat>)
    requires queue != [] && forall k, m :: 0 <= k < m < |queue| ==> queue[k] != queue[m]
    ensures (set id | id in queue[1..]) == (set id | id in queue) - {queue[0]}
  {
    assert queue == [queue[0]] + queue[1..];
    assert forall k :: 0 <= k < |queue| - 1 ==> queue[1..][k] == queue[k + 1];
  }

  lemma LiveAfterStart(s: State, t: State, readable: bool)
    requires JobsAreTasks(s) && s.queue != [] && t.queue == s.queue[1..]
    requires t.jobs.Keys == s.jobs.Keys + if readable then {s.queue[0]} else {}
    ensures Live(t) == if readable then Live(s) else Live(s) - {s.queue[0]}
  {
    RestOfQueue(s.queue);
    assert s.queue[0] in Live(s);
  }

  lemma LiveAfterEnd(s: State, t: State, id: nat)
    requires JobsAreTasks(s) && id in s.jobs && t.queue == s.queue && t.jobs == s.jobs - {id}
    ensures id in Live(s) && Live(t) == Live(s) - {id}
  {
  }

  /**
   Each job gives its slot back exactly once. Between restarts a slot becomes free in exactly the steps
   in which a job ceases to hold one: that job is the one the step ends, it is alone, and it was live
   before. In every other step the live jobs stay live.
   */
  lemma EachSlotReleasedOnce(s: State, e: Event)
    requires Inv(s) && Enabled(s, e) && !e.Restart?
    ensures var t := Next(s, e);
            t.free - s.free == (|s.queue| + |s.jobs|) - (|t.queue| + |t.jobs|)
    ensures SlotsMove(s, Next(s, e), Leaver(s, e))
    ensures var t := Next(s, e);
            t.free > s.free <==> exists id :: id in Live(s) && id !in Live(t)
    ensures Next(s, e).free <= s.workers + s.backlog
  {
    SlotsBalance(s, e);
    if e.Start? {
      StartReleases(s, e);
    } else if e.JobFails? || e.JobDies? || e.JobEnds? {
      EndReleases(s, e);
    } else {
      OthersKeepSlots(s, e);
    }
    FreeIffLeft(s, Next(s, e), Leaver(s, e));
  }

  lemma SlotsBalance(s: State, e: Event)
    requires Inv(s) && Enabled(s, e) && !e.Restart?
    ensures var t := Next(s, e);
            t.free - s.free == (|s.queue| + |s.jobs|) - (|t.queue| + |t.jobs|) && t.free <= s.workers + s.backlog
  {
    StepKeepsInv(s, e);
  }

  lemma FreeIffLeft(s: State, t: State, leaver: Option<nat>)
    requires SlotsMove(s, t, leaver)
    ensures t.free > s.free <==> exists id :: id in Live(s) && id !in Live(t)
  {
    if leaver.Some? {
      assert leaver.value !in Live(t);
    }
  }

  lemma StartReleases(s: State, e: Event)
    requires Inv(s) && Enabled(s, e) && e.Start?
    ensures SlotsMove(s, Next(s, e), Leaver(s, e))
  {
    LiveAfterStart(s, Next(s, e), e.readable);
    assert s.queue[0] in Live(s);
  }

  lemma EndReleases(s: State, e: Event)
    requires Inv(s) && Enabled(s, e) && (e.JobFails? || e.JobDies? || e.JobEnds?)
    ensures SlotsMove(s, Next(s, e), Leaver(s, e))
  {
    LiveAfterEnd(s, Next(s, e), e.id);
  }

  lemma OthersKeepSlots(s: State, e: Event)
    requires Enabled(s, e) && (e.Submit? || e.SaveSuccess? || e.Poll?)
    ensures Live(s) <= Live(Next(s, e)) && Next(s, e).free <= s.free
  {
    var t := Next(s, e);
    assert s.queue <= t.queue && s.jobs.Keys <= t.jobs.Keys;
    forall id | id in s.queue ensures id in t.queue {
      var k :| 0 <= k < |s.queue| && s.queue[k] == id;
      assert t.queue[k] == id;
    }
  }

  /** In every reachable state a key has at most one active task never marked stale, and it is the newest active one. */
  lemma SingleTaskPerKey(states: seq<State>, events: seq<Event>, k: nat, i: nat, j: nat)
    requires IsRun(states, events) && k < |states|
    requires var s := states[k];
             i < |s.tasks| && j < |s.tasks| && i != j && s.tasks[i].key == s.tasks[j].key &&
             IsActive(s.tasks[i]) && IsActive(s.tasks[j]) && j !in s.marked
    ensures var s := states[k];
            i in s.marked && s.tasks[i].createdAt < s.tasks[j].createdAt
  {
    RunKeepsInv(states, events, k);
    assert IsHolder(states[k], j) && MayBeActive(states[k], i);
  }

  /** Deduplication never turns a request away in favour of a marked task. */
  lemma ReusedTaskWasNeverMarked(s: State, e: Event)
    requires Inv(s) && Enabled(s, e) && e.Submit? && !e.cacheHit
    requires e.found.Some? && !IsStale(s.tasks[e.found.value], e.now)
    ensures e.found.value !in s.marked && Next(s, e).tasks == s.tasks
  {
  }

  // ---- What each step does to the rows -------------------------------------------------------------

  /** A task is stale when it is pending or running and was created more than ten minutes ago. */
  lemma StaleMeaning(t: Task, now: int)
    ensures IsStale(t, now) <==> (t.status == Pending || t.status == Running) && now - t.createdAt > 600_000_000
  {
  }

  /** Does the submission create a row? Not on a cache hit, nor while an active task of the key is fresh. */
  predicate Creates(s: State, e: Event) {
    e.Submit? && !e.cacheHit &&
    (e.found.None? || (e.found.value < |s.tasks| && e.now - s.tasks[e.found.value].createdAt > 600_000_000))
  }

  /**
   The created row is pending exactly when its job is queued, behind all others and with a slot taken;
   without a slot, or when handing over the job raised, it is failed and nothing is queued.
   */
  lemma CreatedRow(s: State, e: Event)
    requires Enabled(s, e) && e.Submit?
    ensures var t := Next(s, e);
            && |t.tasks| == |s.tasks| + (if Creates(s, e) then 1 else 0)
            && (!Creates(s, e) ==> t == s.(clock := e.now))
    ensures Creates(s, e) ==>
              var t, id := Next(s, e), |s.tasks|;
              && t.tasks[id].key == e.key && t.tasks[id].createdAt == e.now && t.jobs == s.jobs
              && if s.free > 0 && e.accepted then
                   t.tasks[id].status == Pending && t.queue == s.queue + [id] && t.free == s.free - 1
                 else
                   t.tasks[id].status == Failed && t.queue == s.queue && t.free == s.free
  {
  }

  lemma CreatedIsActiveIffQueued(s: State, e: Event)
    requires Inv(s) && Enabled(s, e) && Creates(s, e)
    ensures |Next(s, e).tasks| == |s.tasks| + 1
    ensures IsActive(Next(s, e).tasks[|s.tasks|]) <==> |s.tasks| in Next(s, e).queue
  {
    CreatedRow(s, e);
    assert forall k :: 0 <= k < |s.queue| ==> s.queue[k] < |s.tasks|;
  }

  /** The row that a step changes among those there were, if it changes one. */
  function Touches(s: State, e: Event): Option<nat> {
    match e
    case Submit(now, _, hit, found, _) =>
      if !hit && found.Some? && found.value < |s.tasks| && now - s.tasks[found.value].createdAt > 600_000_000
      then found else None
    case Start(_, readable) => if readable && s.queue != [] then Some(s.queue[0]) else None
    case SaveSuccess(_, id) => Some(id)
    case JobFails(_, id) => Some(id)
    case Poll(now, id) =>
      if id < |s.tasks| && (s.tasks[id].status == Pending || s.tasks[id].status == Running)
         && now - s.tasks[id].createdAt > 600_000_000 then Some(id) else None
    case _ => None
  }

  /** A step changes one row at most, and gives it the status the step stands for and its time. */
  lemma StepTouchesOneRow(s: State, e: Event, id: nat)
    requires Enabled(s, e) && id < |s.tasks|
    ensures id < |Next(s, e).tasks|
    ensures Touches(s, e) != Some(id) ==> Next(s, e).tasks[id] == s.tasks[id]
    ensures Touches(s, e) == Some(id) ==>
              var t := Next(s, e).tasks[id];
              if e.Start? then t == s.tasks[id].(status := Running)
              else if e.SaveSuccess? then t == s.tasks[id].(status := Success, finishedAt := Some(e.now))
              else t == s.tasks[id].(status := Failed, finishedAt := Some(e.now))
  {
  }

  /** A step a well-behaved process makes: no restart, and no job that stops without saving its end. */
  predicate IsOrderly(e: Event) {
    !e.Restart? && !e.JobDies? && !(e.Start? && !e.readable)
  }

  /** A pending task waits in the queue, a running one is being executed. */
  ghost predicate ActiveHasJob(s: State, id: nat) {
    id < |s.tasks| ==>
      && (s.tasks[id].status == Pending ==> id in s.queue)
      && (s.tasks[id].status == Running ==> id in s.jobs && s.jobs[id] == Started)
  }

  lemma StepKeepsJobs(s: State, e: Event, id: nat)
    requires Inv(s) && Enabled(s, e) && IsOrderly(e) && ActiveHasJob(s, id)
    ensures ActiveHasJob(Next(s, e), id)
  {
    if e.Start? {
      assert s.queue == [s.queue[0]] + s.queue[1..];
    } else if e.Submit? {
      CreatedRow(s, e);
      SubmitKeepsJob(s, e, id);
    }
  }

  lemma SubmitKeepsJob(s: State, e: Event, id: nat)
    requires Inv(s) && Enabled(s, e) && e.Submit? && ActiveHasJob(s, id)
    ensures ActiveHasJob(Next(s, e), id)
  {
    CreatedRow(s, e);
    if id < |s.tasks| {
      StepTouchesOneRow(s, e, id);
    }
  }

  /** As long as the process is well behaved, no task is left waiting for a job that nobody will run. */
  lemma {:induction false} ActiveTasksHaveJobs(states: seq<State>, events: seq<Event>, k: nat, id: nat)
    requires IsRun(states, events) && k < |states|
    requires forall i :: 0 <= i < k ==> IsOrderly(events[i])
    ensures ActiveHasJob(states[k], id)
  {
    if k > 0 {
      ActiveTasksHaveJobs(states, events, k - 1, id);
      RunKeepsInv(states, events, k - 1);
      StepKeepsJobs(states[k - 1], events[k - 1], id);
    }
  }

  // ---- Which status changes happen ---------------------------------------------------------------

  /** Rows are never deleted, and a row's key and creation time never change. */
  lemma RowsPersist(s: State, e: Event, id: nat)
    requires Inv(s) && Enabled(s, e) && id < |s.tasks|
    ensures var t := Next(s, e);
            id < |t.tasks| && t.tasks[id].key == s.tasks[id].key && t.tasks[id].createdAt == s.tasks[id].createdAt
  {
  }

  /** A task leaves success exactly when its own job, still running after the save, raises. */
  lemma LeavingSuccess(s: State, e: Event, id: nat)
    requires Inv(s) && Enabled(s, e) && id < |s.tasks| && s.tasks[id].status == Success
    ensures id < |Next(s, e).tasks|
    ensures Next(s, e).tasks[id].status != Success <==> e == JobFails(e.now, id)
    ensures e == JobFails(e.now, id) ==> s.jobs[id] == Saved && Next(s, e).tasks[id].status == Failed
  {
  }

  /** A task leaves failure exactly when its own job starts, or saves its success; and only after a stale mark. */
  lemma LeavingFailure(s: State, e: Event, id: nat)
    requires Inv(s) && Enabled(s, e) && id < |s.tasks| && s.tasks[id].status == Failed
    ensures id < |Next(s, e).tasks|
    ensures Next(s, e).tasks[id].status == Running <==> e == Start(e.now, true) && s.queue[0] == id
    ensures Next(s, e).tasks[id].status == Success <==> e == SaveSuccess(e.now, id)
    ensures Next(s, e).tasks[id].status in {Failed, Running, Success}
    ensures Next(s, e).tasks[id].status != Failed ==> id in s.marked
  {
  }

  /** The stale rule fires only on an active task more than ten minutes old. */
  lemma MarkedOnlyWhenStale(s: State, e: Event, id: nat)
    requires Inv(s) && Enabled(s, e) && id < |s.tasks|
    ensures id in Next(s, e).marked && id !in s.marked ==>
              IsStale(s.tasks[id], e.now) && Next(s, e).tasks[id].status == Failed
  {
  }

  /** Settled: a finished task with no live job. */
  ghost predicate Settled(s: State, id: nat) {
    id < |s.tasks| && !IsActive(s.tasks[id]) && id !in s.queue && id !in s.jobs
  }

  lemma SettledStep(s: State, e: Event, id: nat)
    requires Inv(s) && Enabled(s, e) && Settled(s, id)
    ensures Settled(Next(s, e), id) && Next(s, e).tasks[id] == s.tasks[id]
  {
  }

  // ---- Exactly which finished tasks may still change ----------------------------------------------

  ghost predicate CanStep(s: State, t: State) {
    exists e :: Enabled(s, e) && t == Next(s, e)
  }

  ghost predicate LinksOn(path: seq<State>, k: nat) {
    k + 1 < |path| ==> CanStep(path[k], path[k + 1])
  }

  /** Steps of the pool lead along `path` from its first state to its last. */
  ghost predicate IsPath(path: seq<State>) {
    path != [] && forall k :: LinksOn(path, k)
  }

  ghost predicate Leads(path: seq<State>, s: State, t: State) {
    IsPath(path) && path[0] == s && path[|path| - 1] == t
  }

  lemma Join(p: seq<State>, q: seq<State>, s: State, t: State, u: State)
    requires Leads(p, s, t) && Leads(q, t, u)
    ensures Leads(p + q[1..], s, u)
  {
    var path := p + q[1..];
    forall k: nat
      ensures LinksOn(path, k)
    {
      if k + 1 < |p| {
        assert LinksOn(p, k);
      } else if k + 1 < |path| {
        assert LinksOn(q, k + 1 - |p|);
      }
    }
  }

  lemma OneStep(s: State, e: Event)
    requires Enabled(s, e)
    ensures Leads([s, Next(s, e)], s, Next(s, e))
  {
    assert CanStep(s, Next(s, e));
  }

  lemma NoStep(s: State)
    ensures Leads([s], s, s)
  {
  }

  /** Some continuation gives the task another status. */
  ghost predicate StatusCanChange(s: State, id: nat) {
    exists path, t :: Leads(path, s, t) && id < |s.tasks| && id < |t.tasks| && t.tasks[id].status != s.tasks[id].status
  }

  lemma SettledCanStep(s: State, t: State, id: nat)
    requires Inv(s) && Settled(s, id) && CanStep(s, t)
    ensures Inv(t) && Settled(t, id) && t.tasks[id] == s.tasks[id]
  {
    var e :| Enabled(s, e) && t == Next(s, e);
    StepKeepsInv(s, e);
    SettledStep(s, e, id);
  }

  /** What every step from a state of this kind keeps holds all along a path. */
  lemma {:induction false} KeptOnPath(path: seq<State>, k: nat, kept: State -> bool)
    requires IsPath(path) && k < |path| && kept(path[0])
    requires forall s, t :: kept(s) && CanStep(s, t) ==> kept(t)
    ensures kept(path[k])
    decreases k
  {
    if k > 0 {
      KeptOnPath(path, k - 1, kept);
      assert LinksOn(path, k - 1);
    }
  }

  ghost predicate SettledAs(s: State, id: nat, task: Task) {
    Inv(s) && Settled(s, id) && s.tasks[id] == task
  }

  /** Settled tasks stay as they are in every continuation. */
  lemma SettledOnPath(path: seq<State>, k: nat, id: nat, task: Task)
    requires IsPath(path) && k < |path| && SettledAs(path[0], id, task)
    ensures SettledAs(path[k], id, task)
  {
    forall s, t | SettledAs(s, id, task) && CanStep(s, t)
      ensures SettledAs(t, id, task)
    {
      SettledCanStep(s, t, id);
    }
    KeptOnPath(path, k, s => SettledAs(s, id, task));
  }

  lemma RunIsPath(states: seq<State>, events: seq<Event>, k: nat, m: nat)
    requires IsRun(states, events) && k <= m < |states|
    ensures IsPath(states[k..m + 1])
  {
    var path := states[k..m + 1];
    forall i: nat
      ensures LinksOn(path, i)
    {
      if i + 1 < |path| {
        assert Enabled(states[k + i], events[k + i]) && path[i] == states[k + i] && path[i + 1] == states[k + i + 1];
      }
    }
  }

  /** Success and failure are final, in every run, once the task's job is gone. */
  lemma SettledIsFinal(states: seq<State>, events: seq<Event>, k: nat, m: nat, id: nat)
    requires IsRun(states, events) && k <= m < |states| && Settled(states[k], id)
    ensures Settled(states[m], id) && states[m].tasks[id] == states[k].tasks[id]
  {
    RunKeepsInv(states, events, k);
    RunIsPath(states, events, k, m);
    SettledOnPath(states[k..m + 1], m - k, id, states[k].tasks[id]);
  }

  /** A failed task the stale rule never touched is settled: nothing revives it. */
  lemma OrdinaryFailureIsFinal(states: seq<State>, events: seq<Event>, k: nat, m: nat, id: nat)
    requires IsRun(states, events) && k <= m < |states|
    requires id < |states[k].tasks| && states[k].tasks[id].status == Failed && id !in states[k].marked
    ensures id < |states[m].tasks| && states[m].tasks[id] == states[k].tasks[id]
  {
    RunKeepsInv(states, events, k);
    SettledIsFinal(states, events, k, m, id);
  }

  lemma JobCanSave(s: State, j: nat) returns (path: seq<State>, t: State)
    requires Inv(s) && j in s.jobs
    ensures Leads(path, s, t) && Inv(t) && t.queue == s.queue && t.workers == s.workers
    ensures |t.jobs| == |s.jobs| && j in t.jobs && t.jobs[j] == Saved
  {
    path, t := [s], s;
    NoStep(s);
    if s.jobs[j] == Started {
      var e := SaveSuccess(s.clock, j);
      StepKeepsInv(s, e);
      OneStep(s, e);
      AddingOne(s.jobs, j, Saved);
      t := Next(s, e);
      path := [s, t];
    }
  }

  lemma SavedJobEnds(s: State, j: nat) returns (t: State)
    requires Inv(s) && j in s.jobs && s.jobs[j] == Saved
    ensures Leads([s, t], s, t) && Inv(t) && t.queue == s.queue && |t.jobs| == |s.jobs| - 1 && t.workers == s.workers
  {
    var e := JobEnds(s.clock, j);
    StepKeepsInv(s, e);
    OneStep(s, e);
    RemovingOne(s.jobs, j);
    t := Next(s, e);
  }

  /** When all workers are busy some job can save its success, if it has not, and end. */
  lemma WorkerCanBeFreed(s: State) returns (path: seq<State>, t: State)
    requires Inv(s) && s.workers >= 1 && |s.jobs| == s.workers
    ensures Leads(path, s, t) && Inv(t) && t.queue == s.queue && |t.jobs| < |s.jobs| && t.workers == s.workers
  {
    var j :| j in s.jobs;
    var p, saved := JobCanSave(s, j);
    t := SavedJobEnds(saved, j);
    Join(p, [saved, t], s, saved, t);
    path := p + [saved, t][1..];
  }

  lemma QueuedStart(s: State) returns (t: State)
    requires Inv(s) && s.queue != [] && |s.jobs| < s.workers
    ensures Leads([s, t], s, t) && Inv(t) && t.queue == s.queue[1..] && t.workers == s.workers
    ensures s.queue[0] < |t.tasks| && t.tasks[s.queue[0]].status == Running
  {
    var e := Start(s.clock, true);
    StepKeepsInv(s, e);
    OneStep(s, e);
    t := Next(s, e);
  }

  /** A queued job can be brought to start: the jobs ahead of it run and end. */
  lemma {:induction false} QueuedCanStart(s: State, p: nat) returns (path: seq<State>, t: State)
    requires Inv(s) && s.workers >= 1 && p < |s.queue|
    ensures Leads(path, s, t) && s.queue[p] < |t.tasks| && t.tasks[s.queue[p]].status == Running
    decreases p, |s.jobs|
  {
    if |s.jobs| == s.workers {
      var before, u := WorkerCanBeFreed(s);
      var after, v := QueuedCanStart(u, p);
      Join(before, after, s, u, v);
      path, t := before + after[1..], v;
    } else {
      var u := QueuedStart(s);
      path, t := [s, u], u;
      if p > 0 {
        var after, v := QueuedCanStart(u, p - 1);
        Join([s, u], after, s, u, v);
        path, t := [s, u] + after[1..], v;
      }
    }
  }

  lemma ExecutingCanChange(s: State, id: nat)
    requires Inv(s) && id in s.jobs && !IsActive(s.tasks[id])
    ensures StatusCanChange(s, id)
  {
    OneStep(s, if s.jobs[id] == Started then SaveSuccess(s.clock, id) else JobFails(s.clock, id));
  }

  lemma QueuedCanChange(s: State, id: nat)
    requires Inv(s) && s.workers >= 1 && id in s.queue && id < |s.tasks| && !IsActive(s.tasks[id])
    ensures StatusCanChange(s, id)
  {
    var p :| 0 <= p < |s.queue| && s.queue[p] == id;
    var path, t := QueuedCanStart(s, p);
  }

  /**
   In every reachable state of a pool with a worker: the status of a finished task can change in some
   continuation if and only if its job is still queued or executing.
   */
  lemma FinishedCanChangeIff(states: seq<State>, events: seq<Event>, k: nat, id: nat)
    requires IsRun(states, events) && k < |states| && states[k].workers >= 1
    requires id < |states[k].tasks| && !IsActive(states[k].tasks[id])
    ensures StatusCanChange(states[k], id) <==> id in states[k].queue || id in states[k].jobs
  {
    var s := states[k];
    RunKeepsInv(states, events, k);
    if id in s.queue {
      QueuedCanChange(s, id);
    } else if id in s.jobs {
      ExecutingCanChange(s, id);
    } else if StatusCanChange(s, id) {
      var path, t :| Leads(path, s, t) && id < |t.tasks| && t.tasks[id].status != s.tasks[id].status;
      SettledOnPath(path, |path| - 1, id, s.tasks[id]);
    }
  }

  const QUEUED := State(1, 0, 0, [0], map[], [Task(7, Pending, 0, None)], {}, 0)

  const SUBMITTED := Submit(0, 7, false, None, true)

  /** A pool of one worker after one submission. */
  lemma QueuedIsReached()
    ensures IsRun([Initial(1, 0, 0), QUEUED], [SUBMITTED])
  {
    var states := [Initial(1, 0, 0), QUEUED];
    assert states[0] == Initial(1, 0, 0);
    assert Next(Initial(1, 0, 0), SUBMITTED) == QUEUED;
  }

  lemma RunExtends(states: seq<State>, events: seq<Event>, e: Event)
    requires IsRun(states, events) && Enabled(states[|events|], e)
    ensures IsRun(states + [Next(states[|events|], e)], events + [e])
  {
    var longer, more := states + [Next(states[|events|], e)], events + [e];
    assert longer[0] == states[0];
    forall k | 0 <= k < |more| ensures Enabled(longer[k], more[k]) && longer[k + 1] == Next(longer[k], more[k]) {
      if k < |events| {
        assert longer[k] == states[k] && longer[k + 1] == states[k + 1] && more[k] == events[k];
      }
    }
  }

  /** Failure is not final after a stale mark: the job, still queued, starts and the failed task runs again. */
  lemma StaleFailureCanRevive() returns (states: seq<State>, events: seq<Event>)
    ensures IsRun(states, events) && |states| == 4
    ensures |states[2].tasks| == |states[3].tasks| == 1
    ensures states[2].tasks[0].status == Failed && states[3].tasks[0].status == Running
  {
    var late := STALE_MICROSECONDS + 1;
    var marked := Next(QUEUED, Poll(late, 0));
    assert marked.queue == [0] && marked.jobs == map[] && |marked.tasks| == 1;
    QueuedIsReached();
    states, events := [Initial(1, 0, 0), QUEUED], [SUBMITTED];
    RunExtends(states, events, Poll(late, 0));
    states, events := states + [marked], events + [Poll(late, 0)];
    RunExtends(states, events, Start(late, true));
    states, events := states + [Next(marked, Start(late, true))], events + [Start(late, true)];
  }

  /** Nor is success: what runs after the success was saved may raise, and then the task is saved as failed. */
  lemma SavedSuccessCanBeOverwritten() returns (states: seq<State>, events: seq<Event>)
    ensures IsRun(states, events) && |states| == 5
    ensures |states[3].tasks| == |states[4].tasks| == 1
    ensures states[3].tasks[0].status == Success && states[4].tasks[0].status == Failed
  {
    var started := Next(QUEUED, Start(0, true));
    assert started.jobs == map[0 := Started] && |started.tasks| == 1;
    var saved := Next(started, SaveSuccess(0, 0));
    QueuedIsReached();
    states, events := [Initial(1, 0, 0), QUEUED], [SUBMITTED];
    RunExtends(states, events, Start(0, true));
    states, events := states + [started], events + [Start(0, true)];
    RunExtends(states, events, SaveSuccess(0, 0));
    states, events := states + [saved], events + [SaveSuccess(0, 0)];
    RunExtends(states, events, JobFails(0, 0));
    states, events := states + [Next(saved, JobFails(0, 0))], events + [JobFails(0, 0)];
  }

  // ---- The pool as the web process holds it --------------------------------------------------------

  datatype Reply = CacheHit | Reused(id: nat) | Full | Refused | Submitted(id: nat)

  /** A job may be joined by a new request: an active one of the key, not stale, and no other is newer. */
  ghost predicate IsReusable(tasks: seq<Task>, i: nat, key: int, now: int)
  {
    && i < |tasks| && tasks[i].key == key && (tasks[i].status == Pending || tasks[i].status == Running)
    && now - tasks[i].createdAt <= 600_000_000
    && forall j :: 0 <= j < |tasks| && tasks[j].key == key
                   && (tasks[j].status == Pending || tasks[j].status == Running) ==>
         tasks[j].createdAt <= tasks[i].createdAt
  }

  ghost predicate NoneReusable(tasks: seq<Task>, key: int, now: int) {
    forall i :: !IsReusable(tasks, i, key, now)
  }

  /** A request joins the task found when it is fresh, and otherwise there is none to join. */
  lemma FoundIsReusableIff(tasks: seq<Task>, key: int, found: Option<nat>, now: int)
    requires MayFind(tasks, key, found)
    ensures if found.Some? && !IsStale(tasks[found.value], now) then IsReusable(tasks, found.value, key, now)
            else NoneReusable(tasks, key, now)
  {
  }

  /** How a job ends: with a failure saved, after its success, or without saving its end. */
  function EndOf(phase: Phase, now: int, id: nat, saveFailure: bool): Event {
    if saveFailure then JobFails(now, id) else if phase == Saved then JobEnds(now, id) else JobDies(now, id)
  }

  class Pool {
    const workers: nat
    const backlog: nat
    var free: int
    var queue: seq<nat>
    var jobs: map<nat, Phase>
    var tasks: seq<Task>
    var clock: int
    ghost var marked: set<nat>

    ghost function View(): State
      reads this
    {
      State(workers, backlog, free, queue, jobs, tasks, marked, clock)
    }

    constructor (workers: nat, backlog: nat, now: int)
      ensures View() == Initial(workers, backlog, now) && Inv(View())
    {
      this.workers := workers;
      this.backlog := backlog;
      free, queue, jobs, tasks, clock, marked := workers + backlog, [], map[], [], now, {};
    }

    /** The newest pending or running task of a key. */
    method FindActive(key: int) returns (found: Option<nat>)
      ensures MayFind(tasks, key, found)
    {
      found := None;
      for k := 0 to |tasks|
        invariant found.Some? ==> found.value < k && tasks[found.value].key == key && IsActive(tasks[found.value])
        invariant forall j :: 0 <= j < k && tasks[j].key == key && IsActive(tasks[j]) ==>
                    found.Some? && tasks[j].createdAt <= tasks[found.value].createdAt
      {
        if tasks[k].key == key && IsActive(tasks[k]) {
          if found.None? || tasks[found.value].createdAt <= tasks[k].createdAt {
            found := Some(k);
          }
        }
      }
    }

    method MarkStaleFailed(id: nat, now: int) returns (did: bool)
      requires id < |tasks|
      modifies this
      ensures var t := old(tasks)[id];
              did <==> (t.status == Pending || t.status == Running) && now - t.createdAt > 600_000_000
      ensures View() == MarkStale(old(View()), id, now)
    {
      var t := tasks[id];
      if t.status == Pending || t.status == Running {
        if now - t.createdAt > STALE_MICROSECONDS {
          tasks := tasks[id := t.(status := Failed, finishedAt := Some(now))];
          marked := marked + {id};
          return true;
        }
      }
      return false;
    }

    /** Creates the row, takes a slot without waiting and hands the job over; gives the slot back if that raises. */
    method CreateTask(key: int, now: int, accepted: bool) returns (reply: Reply)
      modifies this
      ensures View() == CreateAndQueue(old(View()), key, now, accepted)
      ensures reply == if old(free) <= 0 then Full else if accepted then Submitted(|old(tasks)|) else Refused
      ensures match reply
              case Submitted(id) =>
                && tasks == old(tasks) + [Task(key, Pending, now, None)]
                && queue == old(queue) + [id] && free == old(free) - 1
              case Full =>
                tasks == old(tasks) + [Task(key, Failed, now, Some(now))] && queue == old(queue) && free == old(free)
              case _ =>
                tasks == old(tasks) + [Task(key, Failed, now, None)] && queue == old(queue) && free == old(free)
    {
      var id := |tasks|;
      tasks := tasks + [Task(key, Pending, now, None)];
      if free <= 0 {
        tasks := tasks[id := tasks[id].(status := Failed, finishedAt := Some(now))];
        return Full;
      }
      free := free - 1;
      if !accepted {
        free := free + 1;
        tasks := tasks[id := tasks[id].(status := Failed)];
        assert tasks == tasks[..id] + [Task(key, Failed, now, None)];
        return Refused;
      }
      queue := queue + [id];
      return Submitted(id);
    }

    method SubmitTask(now: int, key: int, cacheHit: bool, accepted: bool)
      returns (reply: Reply, ghost found: Option<nat>)
      requires Inv(View()) && now >= clock
      modifies this
      ensures var e := Submit(now, key, cacheHit, found, accepted);
              Enabled(old(View()), e) && View() == Next(old(View()), e) && Inv(View())
      ensures reply.CacheHit? <==> cacheHit
      ensures reply.CacheHit? || reply.Reused? ==> tasks == old(tasks) && queue == old(queue) && free == old(free)
      ensures reply.Reused? ==> reply.id !in marked && IsReusable(tasks, reply.id, key, now)
      ensures !(reply.CacheHit? || reply.Reused?) ==> |tasks| == |old(tasks)| + 1 && NoneReusable(old(tasks), key, now)
      ensures reply.Submitted? ==>
                && accepted && old(free) > 0 && free == old(free) - 1 && reply.id == |old(tasks)|
                && tasks[reply.id] == Task(key, Pending, now, None) && queue == old(queue) + [reply.id]
      ensures reply.Full? ==>
                && old(free) == free == 0 && queue == old(queue)
                && tasks[|old(tasks)|] == Task(key, Failed, now, Some(now))
      ensures reply.Refused? ==>
                && !accepted && old(free) == free > 0 && queue == old(queue)
                && tasks[|old(tasks)|] == Task(key, Failed, now, None)
    {
      ghost var before := View();
      clock := now;
      found := None;
      if cacheHit {
        StepKeepsInv(before, Submit(now, key, cacheHit, found, accepted));
        return CacheHit, found;
      }
      var running := FindActive(key);
      found := running;
      ghost var e := Submit(now, key, cacheHit, found, accepted);
      StepKeepsInv(before, e);
      FoundIsReusableIff(tasks, key, running, now);
      if running.Some? {
        var did := MarkStaleFailed(running.value, now);
        if !did {
          ReusedTaskWasNeverMarked(before, e);
          return Reused(running.value), found;
        }
      }
      reply := CreateTask(key, now, accepted);
    }

    method StartJob(now: int, readable: bool)
      requires Inv(View()) && now >= clock && queue != [] && |jobs| < workers
      modifies this
      ensures Enabled(old(View()), Start(now, readable))
      ensures View() == Next(old(View()), Start(now, readable)) && Inv(View())
      ensures var id := old(queue)[0];
              && queue == old(queue)[1..]
              && if readable then tasks == old(tasks)[id := old(tasks)[id].(status := Running)] && id in jobs
                 else tasks == old(tasks) && id !in jobs && free == old(free) + 1
    {
      StepKeepsInv(View(), Start(now, readable));
      clock := now;
      var id := queue[0];
      queue := queue[1..];
      if readable {
        jobs := jobs[id := Started];
        tasks := tasks[id := tasks[id].(status := Running)];
      } else {
        free := free + 1;
      }
    }

    method SaveJobSuccess(now: int, id: nat)
      requires Inv(View()) && now >= clock && id in jobs && jobs[id] == Started
      modifies this
      ensures Enabled(old(View()), SaveSuccess(now, id))
      ensures View() == Next(old(View()), SaveSuccess(now, id)) && Inv(View())
      ensures id < |tasks| == |old(tasks)| && tasks[id].status == Success && tasks[id].finishedAt == Some(now)
    {
      StepKeepsInv(View(), SaveSuccess(now, id));
      clock := now;
      tasks := tasks[id := tasks[id].(status := Success, finishedAt := Some(now))];
      jobs := jobs[id := Saved];
    }

    /** The end of a job: `saveFailure` when an exception was caught and saved; the slot is released on every path. */
    method EndJob(now: int, id: nat, saveFailure: bool)
      requires Inv(View()) && now >= clock && id in jobs
      modifies this
      ensures var e := EndOf(old(jobs)[id], now, id, saveFailure);
              Enabled(old(View()), e) && View() == Next(old(View()), e) && Inv(View())
      ensures id !in jobs && id < |tasks| == |old(tasks)|
      ensures if saveFailure then tasks[id].status == Failed && tasks[id].finishedAt == Some(now)
              else tasks == old(tasks)
      ensures free == old(free) + 1 <= workers + backlog
    {
      StepKeepsInv(View(), EndOf(jobs[id], now, id, saveFailure));
      clock := now;
      if saveFailure {
        tasks := tasks[id := tasks[id].(status := Failed, finishedAt := Some(now))];
      }
      jobs := jobs - {id};
      free := free + 1;
    }

    method PollStatus(now: int, id: nat) returns (status: Status)
      requires Inv(View()) && now >= clock && id < |tasks|
      modifies this
      ensures Enabled(old(View()), Poll(now, id))
      ensures View() == Next(old(View()), Poll(now, id)) && Inv(View())
      ensures status == tasks[id].status
    {
      StepKeepsInv(View(), Poll(now, id));
      clock := now;
      var _ := MarkStaleFailed(id, now);
      status := tasks[id].status;
    }
  }
}
