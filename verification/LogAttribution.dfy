/** Which invocation a log record is attributed to, over every interleaving of event-loop tasks and
    pool threads. Task numbers grow with time. */
module LogAttribution {
  import opened Outcomes

  type InvocationId = string
  type Tid = nat
  type Thread = nat

  /** The event loop runs on one thread; every other thread belongs to the pool. */
  const LOOP: Thread := 0

  /** `attribute` is what ContextEnabledTask stores. `parent` and `handles` say where the task came
      from: the task that created it, and the invocation request it is the handler of. */
  datatype Task = Task(attribute: Option<InvocationId>, parent: Option<Tid>, handles: Option<InvocationId>)

  /** `stored` is the thread-local invocation id; `jobs` says which invocation's function a pool
      thread is running. */
  datatype State = State(tasks: map<Tid, Task>, stored: map<Thread, InvocationId>, jobs: map<Thread, InvocationId>)

  const INITIAL := State(map[], map[], map[])

  datatype Event =
    /** The gRPC thread schedules a task; no task is current when it is created. */
    | Dispatch(t: Tid)
    /** The handler's first act on an invocation request. */
    | Begin(t: Tid, id: InvocationId)
    /** The handler fills in the function's context, on the loop thread. */
    | FillContext(t: Tid)
    /** Code running in `parent` creates a task. */
    | Spawn(parent: Tid, child: Tid)
    /** _run_sync_func on a pool thread: before and after the function. */
    | JobStart(thread: Thread, id: InvocationId)
    | JobEnd(thread: Thread)

  predicate Enabled(s: State, e: Event) {
    match e
    case Dispatch(t) => t !in s.tasks
    case Begin(t, id) => && t in s.tasks && s.tasks[t].parent.None? && s.tasks[t].handles.None?
                         && forall c :: c in s.tasks ==> s.tasks[c].parent != Some(t)
    case FillContext(t) => t in s.tasks && s.tasks[t].handles.Some?
    case Spawn(parent, child) => parent in s.tasks && child !in s.tasks && parent < child
    case JobStart(thread, id) => thread != LOOP && thread !in s.jobs
    case JobEnd(thread) => thread in s.jobs
  }

  function Next(s: State, e: Event): State
    requires Enabled(s, e)
  {
    match e
    case Dispatch(t) => s.(tasks := s.tasks[t := Task(None, None, None)])
    case Begin(t, id) => s.(tasks := s.tasks[t := s.tasks[t].(attribute := Some(id), handles := Some(id))])
    case FillContext(t) => s.(stored := s.stored[LOOP := s.tasks[t].handles.value])
    case Spawn(parent, child) => s.(tasks := s.tasks[child := Task(s.tasks[parent].attribute, Some(parent), None)])
    case JobStart(thread, id) => s.(stored := s.stored[thread := id], jobs := s.jobs[thread := id])
    case JobEnd(thread) => s.(stored := s.stored - {thread}, jobs := s.jobs - {thread})
  }

  function Run(events: seq<Event>): State {
    if events == [] then INITIAL
    else
      var s := Run(events[..|events| - 1]);
      var e := events[|events| - 1];
      if Enabled(s, e) then Next(s, e) else s
  }

  /** Where a record is logged: in a task, in a loop callback outside any task, or on a pool thread. */
  datatype Place = InTask(t: Tid) | InCallback | InPool(thread: Thread)

  predicate Occurs(s: State, place: Place) {
    match place
    case InTask(t) => t in s.tasks
    case InCallback => true
    case InPool(thread) => thread != LOOP
  }

  function Stored(s: State, thread: Thread): Option<InvocationId> {
    if thread in s.stored then Some(s.stored[thread]) else None
  }

  /** get_current_invocation_id: the current task's id, else the thread's. */
  function GetCurrentInvocationId(s: State, place: Place): Option<InvocationId>
    requires Occurs(s, place)
  {
    match place
    case InTask(t) => if s.tasks[t].attribute.Some? then s.tasks[t].attribute else Stored(s, LOOP)
    case InCallback => Stored(s, LOOP)
    case InPool(thread) => Stored(s, thread)
  }

  // ----- What the events say -----

  /** The i-th event of the run takes place. */
  predicate Happens(events: seq<Event>, i: nat)
    requires i < |events|
  {
    Enabled(Run(events[..i]), events[i])
  }

  /** The invocation whose handler this task is: that of its Begin. */
  function Handles(events: seq<Event>, t: Tid): Option<InvocationId> {
    if events == [] then None
    else
      var last := |events| - 1;
      if events[last].Begin? && events[last].t == t && Happens(events, last) then Some(events[last].id)
      else Handles(events[..last], t)
  }

  /** The task whose code created this one, if a task did. */
  function Creator(events: seq<Event>, t: Tid): Option<Tid> {
    if events == [] then None
    else
      var last := |events| - 1;
      if events[last].Spawn? && events[last].child == t && Happens(events, last) then Some(events[last].parent)
      else Creator(events[..last], t)
  }

  /** The invocation a task works for: the one it handles, or the one its creator works for. */
  function TaskInvocation(events: seq<Event>, t: Tid): Option<InvocationId>
    decreases t
  {
    var creator := Creator(events, t);
    if Handles(events, t).Some? then Handles(events, t)
    else if creator.Some? && creator.value < t then TaskInvocation(events, creator.value)
    else None
  }

  /** The invocation whose function a pool thread is running: that of its last job, until the job's end. */
  function Job(events: seq<Event>, thread: Thread): Option<InvocationId> {
    if events == [] then None
    else
      var last := |events| - 1;
      if events[last].JobStart? && events[last].thread == thread && Happens(events, last) then Some(events[last].id)
      else if events[last].JobEnd? && events[last].thread == thread && Happens(events, last) then None
      else Job(events[..last], thread)
  }

  /** The invocation code at this place works for, if any. */
  function WorksFor(events: seq<Event>, place: Place): Option<InvocationId> {
    match place
    case InTask(t) => TaskInvocation(events, t)
    case InCallback => None
    case InPool(thread) => Job(events, thread)
  }

  /** The last invocation of the run whose context was filled in. */
  function LastContext(events: seq<Event>): Option<InvocationId> {
    if events == [] then None
    else
      var last := |events| - 1;
      if events[last].FillContext? && Happens(events, last) then Handles(events[..last], events[last].t)
      else LastContext(events[..last])
  }

  /** The i-th event filled in a context. */
  ghost predicate Fills(events: seq<Event>, i: nat)
    requires i < |events|
  {
    events[i].FillContext? && Happens(events, i)
  }

  // ----- Invariants -----

  /** The invocation a task works for, as the tasks record it. */
  function InvocationOf(tasks: map<Tid, Task>, t: Tid): Option<InvocationId>
    decreases t
  {
    if t !in tasks then None
    else if tasks[t].handles.Some? then tasks[t].handles
    else if tasks[t].parent.Some? && tasks[t].parent.value < t then InvocationOf(tasks, tasks[t].parent.value)
    else None
  }

  ghost predicate ParentsInv(tasks: map<Tid, Task>) {
    forall t :: t in tasks && tasks[t].parent.Some? ==> tasks[t].parent.value in tasks && tasks[t].parent.value < t
  }

  ghost predicate AttributeInv(tasks: map<Tid, Task>) {
    forall t :: t in tasks ==> tasks[t].attribute == InvocationOf(tasks, t)
  }

  ghost predicate ThreadsInv(s: State) {
    && LOOP !in s.jobs
    && forall thread :: thread != LOOP ==> Stored(s, thread) == if thread in s.jobs then Some(s.jobs[thread]) else None
  }

  /** Changing a task that created no other does not change what the others work for. */
  lemma {:induction false} InvocationOfFrame(before: map<Tid, Task>, after: map<Tid, Task>, t: Tid, u: Tid)
    requires ParentsInv(before) && u in before && u != t
    requires after.Keys == before.Keys + {t} && forall v :: v in before && v != t ==> after[v] == before[v]
    requires forall v :: v in before ==> before[v].parent != Some(t)
    ensures InvocationOf(after, u) == InvocationOf(before, u)
    decreases u
  {
    if before[u].handles.None? && before[u].parent.Some? {
      InvocationOfFrame(before, after, t, before[u].parent.value);
    }
  }

  lemma TaskChange(s: State, s': State, t: Tid)
    requires ParentsInv(s.tasks) && AttributeInv(s.tasks)
    requires s'.tasks.Keys == s.tasks.Keys + {t} && forall v :: v in s.tasks && v != t ==> s'.tasks[v] == s.tasks[v]
    requires forall v :: v in s.tasks ==> s.tasks[v].parent != Some(t)
    requires s'.tasks[t].parent.Some? ==> s'.tasks[t].parent.value in s.tasks && s'.tasks[t].parent.value < t
    requires s'.tasks[t].attribute ==
             if s'.tasks[t].handles.Some? then s'.tasks[t].handles
             else if s'.tasks[t].parent.Some? then InvocationOf(s.tasks, s'.tasks[t].parent.value)
             else None
    ensures ParentsInv(s'.tasks) && AttributeInv(s'.tasks)
  {
    forall u | u in s'.tasks ensures s'.tasks[u].attribute == InvocationOf(s'.tasks, u) {
      if u != t {
        InvocationOfFrame(s.tasks, s'.tasks, t, u);
      } else if s'.tasks[t].parent.Some? {
        InvocationOfFrame(s.tasks, s'.tasks, t, s'.tasks[t].parent.value);
      }
    }
  }

  /** The fields of tasks and threads record what the events say. */
  ghost predicate Recorded(s: State, events: seq<Event>) {
    && (forall t :: t in s.tasks ==>
          s.tasks[t].handles == Handles(events, t) && s.tasks[t].parent == Creator(events, t))
    && (forall t :: t !in s.tasks ==> Handles(events, t) == None && Creator(events, t) == None)
    && (forall thread :: (if thread in s.jobs then Some(s.jobs[thread]) else None) == Job(events, thread))
  }

  /** The events so far say of each task and thread what they said before, but for the last one. */
  lemma SnocSays(events: seq<Event>, e: Event, t: Tid, thread: Thread)
    ensures var all, on := events + [e], Enabled(Run(events), e);
            && Handles(all, t) == (if on && e.Begin? && e.t == t then Some(e.id) else Handles(events, t))
            && Creator(all, t) == (if on && e.Spawn? && e.child == t then Some(e.parent) else Creator(events, t))
            && Job(all, thread) ==
               (if on && e.JobStart? && e.thread == thread then Some(e.id)
                else if on && e.JobEnd? && e.thread == thread then None
                else Job(events, thread))
            && Run(all) == (if on then Next(Run(events), e) else Run(events))
            && LastContext(all) == (if on && e.FillContext? then Handles(events, e.t) else LastContext(events))
  {
    assert (events + [e])[..|events|] == events;
  }

  lemma {:induction false} RunRecorded(events: seq<Event>)
    ensures Recorded(Run(events), events)
  {
    if events != [] {
      var front, e := events[..|events| - 1], events[|events| - 1];
      RunRecorded(front);
      assert events == front + [e];
      forall t ensures (t in Run(events).tasks ==>
                          Run(events).tasks[t].handles == Handles(events, t)
                          && Run(events).tasks[t].parent == Creator(events, t))
                       && (t !in Run(events).tasks ==> Handles(events, t) == None && Creator(events, t) == None)
      {
        SnocSays(front, e, t, 0);
      }
      forall thread
        ensures (if thread in Run(events).jobs then Some(Run(events).jobs[thread]) else None) == Job(events, thread)
      {
        SnocSays(front, e, 0, thread);
      }
    }
  }

  lemma {:induction false} RunInv(events: seq<Event>)
    ensures var s := Run(events);
            ParentsInv(s.tasks) && AttributeInv(s.tasks) && ThreadsInv(s) && Stored(s, LOOP) == LastContext(events)
  {
    if events != [] {
      var front, e := events[..|events| - 1], events[|events| - 1];
      var s := Run(front);
      RunInv(front);
      RunRecorded(front);
      assert events == front + [e];
      SnocSays(front, e, 0, 0);
      if Enabled(s, e) {
        match e {
          case Dispatch(t) => TaskChange(s, Next(s, e), t);
          case Begin(t, id) => TaskChange(s, Next(s, e), t);
          case Spawn(parent, child) => TaskChange(s, Next(s, e), child);
          case _ =>
        }
      }
    }
  }

  lemma {:induction false} InvocationIsRecorded(events: seq<Event>, t: Tid)
    requires Recorded(Run(events), events)
    ensures InvocationOf(Run(events).tasks, t) == TaskInvocation(events, t)
    decreases t
  {
    var creator := Creator(events, t);
    if creator.Some? && creator.value < t {
      InvocationIsRecorded(events, creator.value);
    }
  }

  /** Every record logged for an invocation carries its id: by its handler task, by any task descended
      from it, or by a pool thread running its function. A pool thread between functions carries none.
      Anything else on the loop thread carries the invocation whose context was filled in last. */
  lemma RecordsCarry(events: seq<Event>, place: Place)
    requires Occurs(Run(events), place)
    ensures GetCurrentInvocationId(Run(events), place) ==
            if WorksFor(events, place).Some? then WorksFor(events, place)
            else if place.InPool? then None
            else LastContext(events)
  {
    RunInv(events);
    RunRecorded(events);
    if place.InTask? { InvocationIsRecorded(events, place.t); }
  }

  /** So code that works for no invocation is logged without an id exactly while no invocation has
      filled in its context; the thread-local id of the loop thread is never reset. */
  lemma BackgroundUnattributedIff(events: seq<Event>, place: Place)
    requires Occurs(Run(events), place) && !place.InPool? && WorksFor(events, place).None?
    ensures GetCurrentInvocationId(Run(events), place).None? <==>
            forall i :: 0 <= i < |events| ==> !Fills(events, i)
  {
    RecordsCarry(events, place);
    LastContextNone(events);
  }

  lemma {:induction false} LastContextNone(events: seq<Event>)
    ensures LastContext(events).None? <==> forall i :: 0 <= i < |events| ==> !Fills(events, i)
  {
    if events != [] {
      var last := |events| - 1;
      var front := events[..last];
      LastContextNone(front);
      RunRecorded(front);
      forall i | 0 <= i < last ensures Fills(front, i) <==> Fills(events, i) {
        assert front[..i] == events[..i];
      }
      assert Fills(events, last) <==> events[last].FillContext? && Enabled(Run(front), events[last]);
    }
  }

  const ONE_RUN := [Dispatch(0), Begin(0, "a"), Spawn(0, 1), FillContext(0), JobStart(7, "a"), Dispatch(2)]

  lemma OneRun()
    ensures Run(ONE_RUN) ==
            State(map[0 := Task(Some("a"), None, Some("a")), 1 := Task(Some("a"), Some(0), None),
                      2 := Task(None, None, None)],
                  map[0 := "a", 7 := "a"], map[7 := "a"])
  {
    var e2 := [Dispatch(0), Begin(0, "a")];
    var e4 := e2 + [Spawn(0, 1)] + [FillContext(0)];
    FirstTwo();
    SnocSays(e2, Spawn(0, 1), 1, 7);
    SnocSays(e2 + [Spawn(0, 1)], FillContext(0), 0, 7);
    SnocSays(e4, JobStart(7, "a"), 0, 7);
    SnocSays(e4 + [JobStart(7, "a")], Dispatch(2), 2, 7);
    assert e4 + [JobStart(7, "a")] + [Dispatch(2)] == ONE_RUN;
  }

  /** A concrete run: a handler task of "a", one it creates, a pool thread that runs its function, and a task
      that works for no invocation, whose records carry "a" all the same. */
  lemma RecordsOfOneRun()
    ensures var s := Run(ONE_RUN);
            && s.tasks.Keys == {0, 1, 2}
            && GetCurrentInvocationId(s, InTask(0)) == Some("a") && GetCurrentInvocationId(s, InTask(1)) == Some("a")
            && GetCurrentInvocationId(s, InPool(7)) == Some("a")
            && GetCurrentInvocationId(Run(ONE_RUN + [JobEnd(7)]), InPool(7)) == None
            && WorksFor(ONE_RUN, InTask(2)) == None && GetCurrentInvocationId(s, InTask(2)) == Some("a")
  {
    OneRun();
    SnocSays(ONE_RUN, JobEnd(7), 2, 7);
    RunRecorded(ONE_RUN);
  }

  lemma FirstTwo()
    ensures Run([Dispatch(0), Begin(0, "a")]) == State(map[0 := Task(Some("a"), None, Some("a"))], map[], map[])
  {
    SnocSays([], Dispatch(0), 0, 0);
    assert [] + [Dispatch(0)] == [Dispatch(0)];
    SnocSays([Dispatch(0)], Begin(0, "a"), 0, 0);
    assert [Dispatch(0)] + [Begin(0, "a")] == [Dispatch(0), Begin(0, "a")];
  }
}
