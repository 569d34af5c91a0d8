/**
 The timeout watchdog of background tasks on Windows. Entering a task registers it for its
 thread and starts a watchdog thread; the watchdog sleeps for the timeout, and if the task is
 still registered it injects an exception into the thread, polls five more seconds, and ends the
 process if the task is still there. Each read of the registry is atomic with what follows it, a
 sleep lasts at least as long as asked, and the tasks of one thread are entered and left as
 nested blocks are.
 */
module Watchdog {
  import opened Options

  const GRACE_SECONDS := 5
  const NO_TIMEOUT := -1.0

  /** A watchdog thread: none, not yet scheduled, in its first sleep, in a sleep of the polling
      loop after `done` polls, or returned. */
  datatype Dog = NoDog | Starting | Asleep(until: real) | Polling(done: nat, until: real) | Gone

  /** A task is named by its position; the position is also its token. */
  datatype Task = Task(thread: int, timeout: real, entered: real, running: bool, dog: Dog)

  datatype Injection = Injection(thread: int, owner: nat, at: real)

  /** `injected` is history. After `killedBy` is set the process is gone. */
  datatype State = State(
    active: map<int, nat>,
    tasks: seq<Task>,
    injected: seq<Injection>,
    killedBy: Option<nat>,
    clock: real)

  datatype Event =
    | Enter(now: real, thread: int, timeout: real)
    | Exit(now: real, id: nat)
    | DogStarts(now: real, id: nat)
    | Wake(now: real, id: nat)
    | Poll(now: real, id: nat)

  predicate Registered(s: State, id: nat) {
    id < |s.tasks| && s.tasks[id].thread in s.active && s.active[s.tasks[id].thread] == id
  }

  predicate RunningOn(s: State, id: nat, thread: int) {
    id < |s.tasks| && s.tasks[id].running && s.tasks[id].thread == thread
  }

  ghost predicate IsInnermost(s: State, id: nat) {
    && id < |s.tasks| && s.tasks[id].running
    && forall j: nat :: j > id ==> !RunningOn(s, j, s.tasks[id].thread)
  }

  ghost predicate Enabled(s: State, e: Event) {
    s.killedBy.None? && e.now >= s.clock &&
    match e
    case Enter(_, _, _) => true
    case Exit(_, id) => IsInnermost(s, id)
    case DogStarts(_, id) => id < |s.tasks| && s.tasks[id].dog == Starting
    case Wake(now, id) => id < |s.tasks| && s.tasks[id].dog.Asleep? && now >= s.tasks[id].dog.until
    case Poll(now, id) => id < |s.tasks| && s.tasks[id].dog.Polling? && now >= s.tasks[id].dog.until
  }

  function SetDog(s: State, id: nat, dog: Dog): State
    requires id < |s.tasks|
  {
    s.(tasks := s.tasks[id := s.tasks[id].(dog := dog)])
  }

  /** `__enter__`. */
  function EnterTask(s: State, thread: int, timeout: real, now: real): State {
    if timeout == NO_TIMEOUT then s.(tasks := s.tasks + [Task(thread, timeout, now, true, NoDog)])
    else s.(tasks := s.tasks + [Task(thread, timeout, now, true, Starting)],
            active := s.active[thread := |s.tasks|])
  }

  /** `__exit__`. */
  function ExitTask(s: State, id: nat): State
    requires id < |s.tasks|
  {
    var t := s.tasks[id];
    s.(tasks := s.tasks[id := t.(running := false)],
       active := if t.timeout != NO_TIMEOUT && Registered(s, id) then s.active - {t.thread} else s.active)
  }

  function Next(s: State, e: Event): State
    requires Enabled(s, e)
  {
    var t := s.(clock := e.now);
    match e
    case Enter(now, thread, timeout) => EnterTask(t, thread, timeout, now)
    case Exit(_, id) => ExitTask(t, id)
    case DogStarts(now, id) =>
      // a negative sleep raises, and the watchdog thread dies
      SetDog(t, id, if s.tasks[id].timeout < 0.0 then Gone else Asleep(now + s.tasks[id].timeout))
    case Wake(now, id) =>
      if !Registered(s, id) then SetDog(t, id, Gone)
      else SetDog(t, id, Polling(0, now + 1.0)).(injected := s.injected + [Injection(s.tasks[id].thread, id, now)])
    case Poll(now, id) =>
      var done := s.tasks[id].dog.done + 1;
      if !Registered(s, id) then SetDog(t, id, Gone)
      else if done < GRACE_SECONDS then SetDog(t, id, Polling(done, now + 1.0))
      else SetDog(t, id, Gone).(killedBy := Some(id))
  }

  function Initial(now: real): State {
    State(map[], [], [], None, now)
  }

  // ---- The invariant -----------------------------------------------------------------------------

  /** A thread's entry names its innermost timed task, which is still running. */
  ghost predicate EntryIsRight(s: State, thread: int) {
    thread in s.active ==>
      var id := s.active[thread];
      && RunningOn(s, id, thread) && s.tasks[id].timeout != NO_TIMEOUT
      && forall j: nat :: j > id && RunningOn(s, j, thread) ==> s.tasks[j].timeout == NO_TIMEOUT
  }

  /** The task was sent the exception. */
  ghost predicate WasInjected(s: State, id: nat) {
    exists k :: 0 <= k < |s.injected| && s.injected[k].owner == id
  }

  /** What a watchdog's state says about its task, and about time. */
  ghost predicate DogIsRight(s: State, id: nat) {
    id < |s.tasks| ==>
      var t := s.tasks[id];
      && t.entered <= s.clock
      && (t.dog == NoDog <==> t.timeout == NO_TIMEOUT)
      && (t.dog.Asleep? ==> t.timeout >= 0.0 && t.dog.until >= t.entered + t.timeout)
      && (t.dog.Polling? ==>
            && t.timeout >= 0.0 && t.dog.done < GRACE_SECONDS && WasInjected(s, id)
            && t.dog.until >= t.entered + t.timeout + 1.0 + t.dog.done as real)
      && (t.dog == Gone && Registered(s, id) && s.killedBy.None? ==> t.timeout < 0.0)
  }

  ghost predicate InjectionIsRight(s: State, k: nat) {
    k < |s.injected| ==>
      var i := s.injected[k];
      && i.owner < |s.tasks|
      && var t := s.tasks[i.owner];
         && t.thread == i.thread && t.timeout >= 0.0
         && t.entered + t.timeout <= i.at <= s.clock
         && (t.dog.Polling? || t.dog.Gone?)
  }

  ghost predicate Inv(s: State) {
    && (forall thread :: EntryIsRight(s, thread))
    && (forall id :: DogIsRight(s, id))
    && (forall k :: InjectionIsRight(s, k))
    && (forall k, m :: 0 <= k < m < |s.injected| ==> s.injected[k].owner != s.injected[m].owner)
    && (s.killedBy.Some? ==>
          && Registered(s, s.killedBy.value) && WasInjected(s, s.killedBy.value)
          && var t := s.tasks[s.killedBy.value];
             t.timeout >= 0.0 && s.clock >= t.entered + t.timeout + GRACE_SECONDS as real)
  }

  lemma EntriesStayRight(s: State, e: Event, thread: int)
    requires Inv(s) && Enabled(s, e)
    ensures EntryIsRight(Next(s, e), thread)
  {
    var t := Next(s, e);
    assert EntryIsRight(s, thread);
    if thread in s.active {
      assert DogIsRight(s, s.active[thread]);
    }
    forall j: nat ensures RunningOn(t, j, thread) ==> RunningOn(s, j, thread) || (e.Enter? && j == |s.tasks|) {
    }
  }

  lemma InjectedForGood(s: State, e: Event, id: nat)
    requires Enabled(s, e)
    requires WasInjected(s, id) || (e.Wake? && e.id == id && Registered(s, id))
    ensures WasInjected(Next(s, e), id)
  {
    var t := Next(s, e);
    if WasInjected(s, id) {
      var k :| 0 <= k < |s.injected| && s.injected[k].owner == id;
      assert t.injected[k].owner == id;
    } else {
      assert t.injected[|s.injected|].owner == id;
    }
  }

  lemma DogsStayRight(s: State, e: Event, id: nat)
    requires Inv(s) && Enabled(s, e)
    ensures DogIsRight(Next(s, e), id)
  {
    assert DogIsRight(s, id);
    if WasInjected(s, id) || (e.Wake? && e.id == id && Registered(s, id)) {
      InjectedForGood(s, e, id);
    }
    if id < |s.tasks| && Registered(Next(s, e), id) && !Registered(s, id) {
      assert false;
    }
  }

  lemma InjectionsStayRight(s: State, e: Event, k: nat)
    requires Inv(s) && Enabled(s, e)
    ensures InjectionIsRight(Next(s, e), k)
  {
    assert InjectionIsRight(s, k);
    if e.Wake? {
      assert DogIsRight(s, e.id);
    }
  }

  /** A watchdog that still sleeps has injected nothing. */
  lemma InjectionsStayDistinct(s: State, e: Event)
    requires Inv(s) && Enabled(s, e)
    ensures var injected := Next(s, e).injected;
            forall k, m :: 0 <= k < m < |injected| ==> injected[k].owner != injected[m].owner
  {
    forall k: nat ensures k < |s.injected| && e.Wake? ==> s.injected[k].owner != e.id {
      assert InjectionIsRight(s, k);
    }
  }

  lemma StepKeepsInv(s: State, e: Event)
    requires Inv(s) && Enabled(s, e)
    ensures Inv(Next(s, e))
  {
    var t := Next(s, e);
    forall thread ensures EntryIsRight(t, thread) { EntriesStayRight(s, e, thread); }
    forall id ensures DogIsRight(t, id) { DogsStayRight(s, e, id); }
    forall k ensures InjectionIsRight(t, k) { InjectionsStayRight(s, e, k); }
    InjectionsStayDistinct(s, e);
    if e.Poll? {
      assert DogIsRight(s, e.id);
      if WasInjected(s, e.id) {
        InjectedForGood(s, e, e.id);
      }
    }
  }

  ghost predicate IsRun(states: seq<State>, events: seq<Event>) {
    && |states| == |events| + 1 && states[0] == Initial(states[0].clock)
    && forall k :: 0 <= k < |events| ==> Enabled(states[k], events[k]) && states[k + 1] == Next(states[k], events[k])
  }

  /** The invariant holds all along every run. */
  lemma {:induction false} RunKeepsInv(states: seq<State>, events: seq<Event>, k: nat)
    requires IsRun(states, events) && k < |states|
    ensures Inv(states[k])
    decreases k
  {
    if k > 0 {
      RunKeepsInv(states, events, k - 1);
      StepKeepsInv(states[k - 1], events[k - 1]);
    }
  }

  // ---- Registration ------------------------------------------------------------------------------

  /** A task is registered when it is entered and at no other moment. */
  lemma NeverRegisteredAgain(s: State, e: Event, id: nat)
    requires Inv(s) && Enabled(s, e) && id < |s.tasks|
    ensures id < |Next(s, e).tasks| && Next(s, e).tasks[id].thread == s.tasks[id].thread
    ensures Next(s, e).tasks[id].entered == s.tasks[id].entered && Next(s, e).tasks[id].timeout == s.tasks[id].timeout
    ensures Registered(Next(s, e), id) ==> Registered(s, id)
    ensures Next(s, e).tasks[id].running ==> s.tasks[id].running
  {
  }

  /** So a task registered now has been registered, and running, ever since it was entered. */
  lemma {:induction false} RegisteredThroughout(states: seq<State>, events: seq<Event>, k: nat, m: nat, id: nat)
    requires IsRun(states, events) && k <= m < |states| && id < |states[k].tasks|
    ensures id < |states[m].tasks| && states[m].tasks[id].thread == states[k].tasks[id].thread
    ensures states[m].tasks[id].entered == states[k].tasks[id].entered
    ensures states[m].tasks[id].timeout == states[k].tasks[id].timeout
    ensures Registered(states[m], id) ==> Registered(states[k], id) && states[k].tasks[id].running
    decreases m - k
  {
    RunKeepsInv(states, events, m);
    if k < m {
      RegisteredThroughout(states, events, k, m - 1, id);
      RunKeepsInv(states, events, m - 1);
      NeverRegisteredAgain(states[m - 1], events[m - 1], id);
    } else if Registered(states[m], id) {
      assert EntryIsRight(states[m], states[m].tasks[id].thread);
    }
  }

  /** A task that has left is registered nowhere, then and for ever, and the other threads' entries stay. */
  lemma FinishedLeavesNoEntry(s: State, e: Event)
    requires Inv(s) && Enabled(s, e) && e.Exit?
    ensures !Registered(Next(s, e), e.id) && e.id !in Next(s, e).active.Values
    ensures forall thread :: thread != s.tasks[e.id].thread ==>
              (thread in Next(s, e).active <==> thread in s.active) &&
              (thread in s.active ==> Next(s, e).active[thread] == s.active[thread])
  {
    var t := Next(s, e);
    forall thread ensures thread in t.active ==> t.active[thread] != e.id {
      EntriesStayRight(s, e, thread);
    }
  }

  // ---- Injections --------------------------------------------------------------------------------

  /** Every injection there ever was: into the thread of the task that started the watchdog, no
      earlier than its timeout, once per task, and never for a task without a timeout. */
  lemma InjectionsAreOwn(states: seq<State>, events: seq<Event>, m: nat, k: nat)
    requires IsRun(states, events) && m < |states| && k < |states[m].injected|
    ensures var i := states[m].injected[k];
            && i.owner < |states[m].tasks|
            && var t := states[m].tasks[i.owner];
               && i.thread == t.thread && i.at >= t.entered + t.timeout && t.timeout != NO_TIMEOUT
    ensures var injected := states[m].injected;
            forall j :: 0 <= j < |injected| && j != k ==> injected[j].owner != injected[k].owner
  {
    RunKeepsInv(states, events, m);
    assert InjectionIsRight(states[m], k);
  }

  /** At the moment of an injection its owner is running, and whatever else its thread has entered
      since and not left is a task without a timeout. */
  lemma InjectionHitsARunningTask(s: State, e: Event)
    requires Inv(s) && Enabled(s, e) && Next(s, e).injected != s.injected
    ensures e.Wake? && Next(s, e).injected == s.injected + [Injection(s.tasks[e.id].thread, e.id, e.now)]
    ensures RunningOn(s, e.id, s.tasks[e.id].thread)
    ensures forall j: nat :: j > e.id && RunningOn(s, j, s.tasks[e.id].thread) ==> s.tasks[j].timeout == NO_TIMEOUT
  {
    assert EntryIsRight(s, s.tasks[e.id].thread);
  }

  /** The exception reaches the thread's innermost task. That task is the watchdog's own exactly
      when it has a timeout: only a task without one, entered inside the owner, can be hit instead. */
  lemma InjectionHitsItsOwnerIff(s: State, e: Event, hit: nat)
    requires Inv(s) && Enabled(s, e) && Next(s, e).injected != s.injected
    requires IsInnermost(s, hit) && s.tasks[hit].thread == s.tasks[e.id].thread
    ensures hit == e.id <==> s.tasks[hit].timeout != NO_TIMEOUT
    ensures hit >= e.id && e.now >= s.tasks[e.id].entered + s.tasks[e.id].timeout
  {
    InjectionHitsARunningTask(s, e);
    assert RunningOn(s, hit, s.tasks[hit].thread);
    assert EntryIsRight(s, s.tasks[e.id].thread) && DogIsRight(s, e.id);
  }

  /** Once a task has left, in no continuation of the run is an exception injected on its behalf. */
  lemma {:induction false} FinishedIsNeverTouched(states: seq<State>, events: seq<Event>, k: nat, m: nat, id: nat)
    requires IsRun(states, events) && k <= m < |states|
    requires id < |states[k].tasks| && !states[k].tasks[id].running
    ensures states[k].injected <= states[m].injected
    ensures forall i :: |states[k].injected| <= i < |states[m].injected| ==> states[m].injected[i].owner != id
    ensures states[m].killedBy == Some(id) ==> states[k].killedBy == Some(id)
    decreases m - k
  {
    if k < m {
      FinishedIsNeverTouched(states, events, k, m - 1, id);
      RunKeepsInv(states, events, k);
      RegisteredThroughout(states, events, k, m - 1, id);
      assert !Registered(states[m - 1], id) by {
        if Registered(states[k], id) {
          assert EntryIsRight(states[k], states[k].tasks[id].thread);
        }
      }
    }
  }

  // ---- The kill ----------------------------------------------------------------------------------

  /** The process is ended only for a task with a timeout that has been registered and running in
      every state since it was entered, hence at the wake-up and at all five polls, only after it
      was sent the exception, and no sooner than five seconds after its timeout. */
  lemma KilledOnlyForAStuckTask(states: seq<State>, events: seq<Event>, k: nat, m: nat)
    requires IsRun(states, events) && k <= m < |states| && states[m].killedBy.Some?
    ensures var id := states[m].killedBy.value;
            && id < |states[m].tasks| && states[m].tasks[id].timeout >= 0.0 && WasInjected(states[m], id)
            && states[m].clock >= states[m].tasks[id].entered + states[m].tasks[id].timeout + 5.0
            && (id < |states[k].tasks| ==> Registered(states[k], id) && states[k].tasks[id].running)
  {
    RunKeepsInv(states, events, m);
    var id := states[m].killedBy.value;
    if id < |states[k].tasks| {
      RegisteredThroughout(states, events, k, m, id);
    }
  }

  /** The fifth poll decides: it ends the process exactly when the task is still registered. */
  lemma FifthPollKillsIff(s: State, e: Event)
    requires Inv(s) && Enabled(s, e)
    ensures Next(s, e).killedBy.Some? <==>
              e.Poll? && s.tasks[e.id].dog.done == 4 && Registered(s, e.id)
  {
    if e.Poll? {
      assert DogIsRight(s, e.id);
    }
  }

  /** No watchdog gives up on a registered task: until the process ends, only a negative timeout
      leaves such a task unwatched. */
  lemma RegisteredIsWatched(states: seq<State>, events: seq<Event>, m: nat, id: nat)
    requires IsRun(states, events) && m < |states| && states[m].killedBy.None?
    requires Registered(states[m], id) && states[m].tasks[id].timeout >= 0.0
    ensures var dog := states[m].tasks[id].dog; dog == Starting || dog.Asleep? || dog.Polling?
  {
    RunKeepsInv(states, events, m);
    assert DogIsRight(states[m], id) && EntryIsRight(states[m], states[m].tasks[id].thread);
  }

  // ---- Nested tasks ------------------------------------------------------------------------------

  /** A timed task entered inside another takes over the thread's entry and does not give it back:
      from then on the outer task runs unwatched. */
  lemma InnerTaskDisarmsOuter(s: State, e: Event, outer: nat)
    requires Inv(s) && Enabled(s, e) && e.Enter? && e.timeout != NO_TIMEOUT && RunningOn(s, outer, e.thread)
    ensures !Registered(Next(s, e), outer) && Next(s, e).tasks[outer].running
  {
  }

  /** Once it is unregistered a watchdog ends without touching anything, whenever it looks. */
  lemma UnregisteredIsLeftAlone(s: State, e: Event)
    requires Inv(s) && Enabled(s, e) && (e.Wake? || e.Poll?) && !Registered(s, e.id)
    ensures Next(s, e).injected == s.injected && Next(s, e).killedBy.None? && Next(s, e).tasks[e.id].dog == Gone
  {
  }

  const TIMED := Task(1, 10.0, 0.0, true, Starting)
  const ASLEEP := TIMED.(dog := Asleep(10.0))
  const UNTIMED := Task(1, NO_TIMEOUT, 1.0, true, NoDog)

  /** A task with a timeout of ten seconds enters one without, and that one is hit: its thread gets the exception. */
  lemma UntimedTaskCanBeHit() returns (states: seq<State>, events: seq<Event>)
    ensures IsRun(states, events) && |states| == 5
    ensures var s := states[3];
            && IsInnermost(s, 1) && s.tasks[1].thread == 1 && s.tasks[1].timeout == NO_TIMEOUT
            && states[4].injected == [Injection(1, 0, 10.0)]
  {
    var s0 := Initial(0.0);
    var s1 := State(map[1 := 0], [TIMED], [], None, 0.0);
    var s2 := State(map[1 := 0], [ASLEEP], [], None, 0.0);
    var s3 := State(map[1 := 0], [ASLEEP, UNTIMED], [], None, 1.0);
    events := [Enter(0.0, 1, 10.0), DogStarts(0.0, 0), Enter(1.0, 1, NO_TIMEOUT), Wake(10.0, 0)];
    assert Next(s0, events[0]) == s1 && Next(s1, events[1]) == s2;
    assert [ASLEEP] + [UNTIMED] == [ASLEEP, UNTIMED] && Next(s2, events[2]) == s3;
    assert Enabled(s3, events[3]) && Registered(s3, 0);
    states := [s0, s1, s2, s3, Next(s3, events[3])];
  }

  // ---- In seconds --------------------------------------------------------------------------------

  /** The state in which a task entered at 0 with a timeout of ten seconds is polled, after `n` polls. */
  function Polled(n: nat, clock: real): State {
    State(map[1 := 0], [TIMED.(dog := Polling(n, clock + 1.0))], [Injection(1, 0, 10.0)], None, clock)
  }

  /** Entering at 0, the watchdog's start, the wake-up at ten seconds, and `n` polls, one each second. */
  ghost predicate IsStuckRun(states: seq<State>, events: seq<Event>, n: nat) {
    && IsRun(states, events) && |events| == 3 + n
    && events[..3] == [Enter(0.0, 1, 10.0), DogStarts(0.0, 0), Wake(10.0, 0)]
    && forall i :: 3 <= i < |events| ==> events[i] == Poll(8.0 + i as real, 0)
  }

  lemma {:induction false} StuckRun(n: nat) returns (states: seq<State>, events: seq<Event>)
    requires n <= 4
    ensures IsStuckRun(states, events, n) && states[3 + n] == Polled(n, 10.0 + n as real)
  {
    if n == 0 {
      var s1, s2 := State(map[1 := 0], [TIMED], [], None, 0.0), State(map[1 := 0], [ASLEEP], [], None, 0.0);
      FirstTenSeconds(Initial(0.0), s1, s2);
      states := [Initial(0.0), s1, s2, Polled(0, 10.0)];
      events := [Enter(0.0, 1, 10.0), DogStarts(0.0, 0), Wake(10.0, 0)];
    } else {
      states, events := StuckRun(n - 1);
      PollGoesOn(n - 1, 10.0 + (n - 1) as real);
      states, events := NextPoll(states, events, n - 1);
    }
  }

  lemma NextPoll(states: seq<State>, events: seq<Event>, n: nat) returns (longer: seq<State>, more: seq<Event>)
    requires IsStuckRun(states, events, n) && Enabled(states[3 + n], Poll(11.0 + n as real, 0))
    ensures IsStuckRun(longer, more, n + 1)
    ensures longer[3 + n] == states[3 + n] && longer[4 + n] == Next(states[3 + n], Poll(11.0 + n as real, 0))
  {
    var e := Poll(11.0 + n as real, 0);
    RunExtends(states, events, e);
    longer, more := states + [Next(states[3 + n], e)], events + [e];
  }

  /** A task that never leaves: the exception at ten seconds, a poll each second after that, and the end at fifteen. */
  lemma StuckTaskIsKilledInTime() returns (states: seq<State>, events: seq<Event>)
    ensures IsStuckRun(states, events, 5)
    ensures states[7].killedBy == None
    ensures states[8].killedBy == Some(0) && states[8].clock == 15.0 && states[8].injected == [Injection(1, 0, 10.0)]
  {
    states, events := StuckRun(4);
    FifthPoll(states[7]);
    states, events := NextPoll(states, events, 4);
  }

  lemma RunExtends(states: seq<State>, events: seq<Event>, e: Event)
    requires IsRun(states, events) && Enabled(states[|events|], e)
    ensures IsRun(states + [Next(states[|events|], e)], events + [e])
  {
  }

  lemma FirstTenSeconds(s0: State, s1: State, s2: State)
    requires s0 == Initial(0.0) && s1 == State(map[1 := 0], [TIMED], [], None, 0.0)
    requires s2 == State(map[1 := 0], [ASLEEP], [], None, 0.0)
    ensures Enabled(s0, Enter(0.0, 1, 10.0)) && Next(s0, Enter(0.0, 1, 10.0)) == s1
    ensures Enabled(s1, DogStarts(0.0, 0)) && Next(s1, DogStarts(0.0, 0)) == s2
    ensures Enabled(s2, Wake(10.0, 0)) && Next(s2, Wake(10.0, 0)) == Polled(0, 10.0)
  {
    var none: seq<Injection> := [];
    assert none + [Injection(1, 0, 10.0)] == [Injection(1, 0, 10.0)];
  }

  lemma FifthPoll(last: State)
    requires last == Polled(4, 14.0)
    ensures Enabled(last, Poll(15.0, 0)) && Next(last, Poll(15.0, 0)).killedBy == Some(0)
    ensures Next(last, Poll(15.0, 0)).injected == [Injection(1, 0, 10.0)] && Next(last, Poll(15.0, 0)).clock == 15.0
  {
    assert Registered(last, 0);
  }

  lemma PollGoesOn(n: nat, clock: real)
    requires n < 4
    ensures Enabled(Polled(n, clock), Poll(clock + 1.0, 0))
    ensures Next(Polled(n, clock), Poll(clock + 1.0, 0)) == Polled(n + 1, clock + 1.0)
  {
    assert Registered(Polled(n, clock), 0);
  }

  /** What entering and leaving do to the registry, thread by thread. */
  lemma RegistryMeaning(s: State, e: Event, thread: int)
    requires Enabled(s, e)
    ensures var t := Next(s, e);
            if e.Enter? && e.thread == thread && e.timeout != -1.0 then
              thread in t.active && t.active[thread] == |s.tasks|
            else if e.Exit? && thread in s.active && s.active[thread] == e.id && s.tasks[e.id].thread == thread
                    && s.tasks[e.id].timeout != -1.0 then thread !in t.active
            else
              && (thread in t.active <==> thread in s.active)
              && (thread in s.active ==> t.active[thread] == s.active[thread])
  {
  }

  // ---- The worker process ------------------------------------------------------------------------

  class Worker {
    var active: map<int, nat>
    var tasks: seq<Task>
    var killedBy: Option<nat>
    var clock: real
    ghost var injected: seq<Injection>

    ghost function View(): State
      reads this
    {
      State(active, tasks, injected, killedBy, clock)
    }

    constructor (now: real)
      ensures View() == Initial(now) && Inv(View())
    {
      active, tasks, injected, killedBy, clock := map[], [], [], None, now;
    }

    method EnterHandler(now: real, thread: int, timeout: real)
      requires Inv(View()) && killedBy.None? && now >= clock
      modifies this
      ensures View() == Next(old(View()), Enter(now, thread, timeout)) && Inv(View())
      ensures timeout == NO_TIMEOUT ==> active == old(active)
      ensures timeout != NO_TIMEOUT ==> Registered(View(), |old(tasks)|)
      ensures |tasks| == |old(tasks)| + 1 && old(tasks) <= tasks
      ensures var t := tasks[|old(tasks)|];
              t.thread == thread && t.timeout == timeout && t.entered == now && t.running
    {
      StepKeepsInv(View(), Enter(now, thread, timeout));
      clock := now;
      if timeout == NO_TIMEOUT {
        tasks := tasks + [Task(thread, timeout, now, true, NoDog)];
        return;
      }
      var token := |tasks|;
      active := active[thread := token];
      tasks := tasks + [Task(thread, timeout, now, true, Starting)];
    }

    method ExitHandler(now: real, id: nat)
      requires Inv(View()) && Enabled(View(), Exit(now, id))
      modifies this
      ensures View() == Next(old(View()), Exit(now, id)) && Inv(View())
      ensures id !in active.Values && injected == old(injected)
      ensures tasks == old(tasks)[id := old(tasks)[id].(running := false)]
    {
      StepKeepsInv(View(), Exit(now, id));
      FinishedLeavesNoEntry(View(), Exit(now, id));
      clock := now;
      var t := tasks[id];
      tasks := tasks[id := t.(running := false)];
      if t.timeout == NO_TIMEOUT {
        return;
      }
      if t.thread in active && active[t.thread] == id {
        active := active - {t.thread};
      }
    }

    /** The watchdog thread begins; a negative sleep raises. */
    method StartDog(now: real, id: nat)
      requires Inv(View()) && Enabled(View(), DogStarts(now, id))
      modifies this
      ensures View() == Next(old(View()), DogStarts(now, id)) && Inv(View())
      ensures active == old(active) && injected == old(injected)
    {
      StepKeepsInv(View(), DogStarts(now, id));
      clock := now;
      var t := tasks[id];
      tasks := tasks[id := t.(dog := if t.timeout < 0.0 then Gone else Asleep(now + t.timeout))];
    }

    /** The end of the watchdog's first sleep. */
    method WakeDog(now: real, id: nat) returns (raised: bool)
      requires Inv(View()) && Enabled(View(), Wake(now, id))
      modifies this
      ensures View() == Next(old(View()), Wake(now, id)) && Inv(View())
      ensures raised <==> old(Registered(View(), id))
      ensures raised <==> injected == old(injected) + [Injection(tasks[id].thread, id, now)]
      ensures active == old(active)
    {
      StepKeepsInv(View(), Wake(now, id));
      clock := now;
      var t := tasks[id];
      if t.thread !in active || active[t.thread] != id {
        tasks := tasks[id := t.(dog := Gone)];
        return false;
      }
      injected := injected + [Injection(t.thread, id, now)];
      tasks := tasks[id := t.(dog := Polling(0, now + 1.0))];
      return true;
    }

    /** The end of one second of the polling loop. */
    method PollDog(now: real, id: nat)
      requires Inv(View()) && Enabled(View(), Poll(now, id))
      modifies this
      ensures View() == Next(old(View()), Poll(now, id)) && Inv(View())
      ensures killedBy == Some(id) <==> old(Registered(View(), id)) && old(tasks[id].dog.done) == GRACE_SECONDS - 1
      ensures active == old(active) && injected == old(injected)
    {
      StepKeepsInv(View(), Poll(now, id));
      FifthPollKillsIff(View(), Poll(now, id));
      clock := now;
      var t := tasks[id];
      if t.thread !in active || active[t.thread] != id {
        tasks := tasks[id := t.(dog := Gone)];
        return;
      }
      var done := t.dog.done + 1;
      if done < GRACE_SECONDS {
        tasks := tasks[id := t.(dog := Polling(done, now + 1.0))];
        return;
      }
      tasks := tasks[id := t.(dog := Gone)];
      killedBy := Some(id);
    }
  }
}
