/** MessageLoopThread and ExecutionBarrier (common/message_loop_thread.cc,
    common/execution_barrier.cc) as state machines over the steps of their threads. */
module ExecutionBarrier {
  import opened Optional

  /** Where a thread stands: in WaitForExecution, or in NotifyFinished. */
  datatype Pc =
    | WantsLock       // a waiter about to take the mutex, first or after a wake-up
    | Testing         // a waiter holding the mutex at the loop test
    | Blocked         // a waiter inside wait(), mutex released
    | Returned        // WaitForExecution has returned
    | WantsToNotify   // a notifier about to take the mutex
    | SettingFlag     // a notifier holding the mutex, before finished_ = true
    | Notifying       // a notifier holding the mutex, before notify_all()
    | Releasing       // a notifier holding the mutex, about to return
    | Notified        // NotifyFinished has returned

  datatype State = State(finished: bool, threads: map<int, Pc>)

  predicate HoldsMutex(pc: Pc) {
    pc.Testing? || pc.SettingFlag? || pc.Notifying? || pc.Releasing?
  }

  ghost predicate MutexFree(s: State) {
    forall t :: t in s.threads ==> !HoldsMutex(s.threads[t])
  }

  datatype Action =
    | Wait(thread: int)      // a thread calls WaitForExecution
    | Notify(thread: int)    // a thread calls NotifyFinished
    | Advance(thread: int)   // a thread takes its next step
    | Spurious(thread: int)  // wait() returns without a notification

  ghost predicate Enabled(s: State, a: Action) {
    match a
    case Wait(t) => t !in s.threads
    case Notify(t) => t !in s.threads
    case Advance(t) =>
      t in s.threads
      && (match s.threads[t]
          case WantsLock => MutexFree(s)
          case WantsToNotify => MutexFree(s)
          case Blocked => false
          case Returned => false
          case Notified => false
          case _ => true)
    case Spurious(t) => t in s.threads && s.threads[t].Blocked?
  }

  ghost function Wake(threads: map<int, Pc>): map<int, Pc> {
    map t | t in threads :: if threads[t].Blocked? then WantsLock else threads[t]
  }

  ghost function Do(s: State, a: Action): State
    requires Enabled(s, a)
  {
    match a
    case Wait(t) => s.(threads := s.threads[t := WantsLock])
    case Notify(t) => s.(threads := s.threads[t := WantsToNotify])
    case Spurious(t) => s.(threads := s.threads[t := WantsLock])
    case Advance(t) =>
      match s.threads[t]
      case WantsLock => s.(threads := s.threads[t := Testing])
      case Testing => s.(threads := s.threads[t := if s.finished then Returned else Blocked])
      case WantsToNotify => s.(threads := s.threads[t := SettingFlag])
      case SettingFlag => State(true, s.threads[t := Notifying])
      case Notifying => s.(threads := Wake(s.threads)[t := Releasing])
      case Releasing => s.(threads := s.threads[t := Notified])
  }

  /** The state after a run of enabled actions, None if one of them was not enabled. */
  ghost function After(actions: seq<Action>): (r: Option<State>) {
    if actions == [] then Some(State(false, map[]))
    else
      var before := After(actions[..|actions| - 1]);
      var a := actions[|actions| - 1];
      if before.Some? && Enabled(before.value, a) then Some(Do(before.value, a)) else None
  }

  /** Only reached once the flag has been set. */
  predicate PastFlag(pc: Pc) {
    pc.Returned? || pc.Notifying? || pc.Releasing? || pc.Notified?
  }

  ghost predicate OneHolder(s: State) {
    forall t, u :: t in s.threads && u in s.threads && HoldsMutex(s.threads[t]) && HoldsMutex(s.threads[u]) ==> t == u
  }

  ghost predicate FlagFirst(s: State) {
    forall t :: t in s.threads && PastFlag(s.threads[t]) ==> s.finished
  }

  ghost predicate AnyBlocked(s: State) {
    exists t :: t in s.threads && s.threads[t].Blocked?
  }

  ghost predicate AnyNotifying(s: State) {
    exists n :: n in s.threads && s.threads[n].Notifying?
  }

  /** Once the flag is set, a sleeper has a notifier on its way. */
  ghost predicate Noticed(s: State) {
    AnyBlocked(s) && s.finished ==> AnyNotifying(s)
  }

  ghost predicate Inv(s: State) {
    OneHolder(s) && FlagFirst(s) && Noticed(s)
  }

  lemma StepHolder(s: State, a: Action)
    requires OneHolder(s) && Enabled(s, a)
    ensures OneHolder(Do(s, a))
  {
  }

  lemma StepFlag(s: State, a: Action)
    requires FlagFirst(s) && Enabled(s, a)
    ensures FlagFirst(Do(s, a))
  {
  }

  lemma StepNoticed(s: State, a: Action)
    requires Inv(s) && Enabled(s, a)
    ensures Noticed(Do(s, a))
  {
    var r := Do(s, a);
    if a.Advance? && s.threads[a.thread].SettingFlag? {
      assert r.threads[a.thread].Notifying?;
    } else if AnyBlocked(r) && r.finished {
      var t :| t in r.threads && r.threads[t].Blocked?;
      assert t in s.threads && s.finished;
      if s.threads[t].Blocked? {
        var n :| n in s.threads && s.threads[n].Notifying?;
        assert HoldsMutex(s.threads[n]);
        assert r.threads[n].Notifying?;
      }
    }
  }

  lemma StepInv(s: State, a: Action)
    requires Inv(s) && Enabled(s, a)
    ensures Inv(Do(s, a))
  {
    StepHolder(s, a);
    StepFlag(s, a);
    StepNoticed(s, a);
  }

  /** Over every interleaving: no wait returns before the flag is set, and no waiter is left
      asleep once the notifier has released the mutex (no wake-up is lost). */
  lemma {:induction false} NoLostWakeUp(actions: seq<Action>)
    requires After(actions).Some?
    ensures var s := After(actions).value;
            && Inv(s)
            && (forall t :: t in s.threads && s.threads[t].Returned? ==> s.finished)
            && (s.finished && MutexFree(s) ==> forall t :: t in s.threads ==> !s.threads[t].Blocked?)
  {
    if actions != [] {
      NoLostWakeUp(actions[..|actions| - 1]);
      StepInv(After(actions[..|actions| - 1]).value, actions[|actions| - 1]);
    }
    var s := After(actions).value;
    assert MutexFree(s) ==> forall n :: n in s.threads ==> !s.threads[n].Notifying?;
  }

  // ----- Every waiter returns -----

  /** How many steps a thread can still take once the flag is set. */
  function Weight(pc: Pc): nat {
    match pc
    case WantsLock => 2
    case Testing => 1
    case Blocked => 3
    case Returned => 0
    case WantsToNotify => 4
    case SettingFlag => 3
    case Notifying => 2
    case Releasing => 1
    case Notified => 0
  }

  /** The same for some of the threads together. */
  ghost function Sum(some: set<int>, threads: map<int, Pc>): nat
    requires some <= threads.Keys
  {
    if exists t :: t in some then var t :| t in some; Weight(threads[t]) + Sum(some - {t}, threads) else 0
  }

  ghost function Remaining(s: State): nat {
    Sum(s.threads.Keys, s.threads)
  }

  lemma {:induction false} SumWithout(some: set<int>, threads: map<int, Pc>, t: int)
    requires some <= threads.Keys && t in some
    ensures Sum(some, threads) == Weight(threads[t]) + Sum(some - {t}, threads)
  {
    var u :| u in some && Sum(some, threads) == Weight(threads[u]) + Sum(some - {u}, threads);
    if u != t {
      SumWithout(some - {u}, threads, t);
      SumWithout(some - {t}, threads, u);
      assert some - {u} - {t} == some - {t} - {u};
    }
  }

  /** Lighter threads have no more steps left together. */
  lemma {:induction false} SumMonotone(some: set<int>, a: map<int, Pc>, b: map<int, Pc>)
    requires some <= a.Keys && some <= b.Keys && forall t :: t in some ==> Weight(a[t]) <= Weight(b[t])
    ensures Sum(some, a) <= Sum(some, b)
  {
    if t :| t in some {
      SumWithout(some, a, t);
      SumWithout(some, b, t);
      SumMonotone(some - {t}, a, b);
    }
  }

  /** Once the flag is set, every step but a new call leaves fewer steps to take. */
  lemma StepShrinks(s: State, a: Action)
    requires Enabled(s, a) && s.finished && (a.Advance? || a.Spurious?)
    ensures Do(s, a).finished && Remaining(Do(s, a)) < Remaining(s)
  {
    var r, t := Do(s, a).threads, a.thread;
    var keys := s.threads.Keys;
    assert r.Keys == keys;
    SumWithout(keys, s.threads, t);
    SumWithout(keys, r, t);
    SumMonotone(keys - {t}, r, s.threads);
  }

  predicate IsDone(pc: Pc) {
    pc.Returned? || pc.Notified?
  }

  /** And until every thread has returned, some thread can take a step. */
  lemma NeverStuck(s: State, t: int) returns (u: int)
    requires Inv(s) && s.finished && t in s.threads && !IsDone(s.threads[t])
    ensures Enabled(s, Advance(u))
  {
    if v :| v in s.threads && HoldsMutex(s.threads[v]) {
      u := v;
    } else {
      assert MutexFree(s);
      u := t;
    }
  }

  ghost predicate NoNewCalls(more: seq<Action>) {
    forall i :: 0 <= i < |more| ==> more[i].Advance? || more[i].Spurious?
  }

  /** Whatever the schedule: once the flag is set, and while no new calls are made, the threads
      take a bounded number of steps, and if they cannot take another one every wait has
      returned. */
  lemma {:induction false} EveryWaitReturns(actions: seq<Action>, more: seq<Action>)
    requires After(actions).Some? && After(actions).value.finished
    requires After(actions + more).Some? && NoNewCalls(more)
    ensures var s, r := After(actions).value, After(actions + more).value;
            && r.finished && |more| + Remaining(r) <= Remaining(s)
            && ((forall t :: t in r.threads ==> !Enabled(r, Advance(t))) ==>
                  forall t :: t in r.threads ==> IsDone(r.threads[t]))
    decreases |more|
  {
    var r := After(actions + more).value;
    if more == [] {
      assert actions + more == actions;
    } else {
      var n := |more| - 1;
      assert (actions + more)[..|actions + more| - 1] == actions + more[..n];
      EveryWaitReturns(actions, more[..n]);
      StepShrinks(After(actions + more[..n]).value, more[n]);
    }
    NoLostWakeUp(actions + more);
    if t :| t in r.threads && !IsDone(r.threads[t]) {
      var u := NeverStuck(r, t);
    }
  }
}

module MessageLoopThread {
  import opened Optional

  /** A pointer field: null, pointing at a live object, or at a deleted one. */
  datatype Ptr = Null | Live | Dangling

  type TaskId = nat
  datatype Item = Task(id: TaskId) | Quit

  /** The next statement of Run(), on the worker thread. */
  datatype Worker =
    | NoWorker
    | NewLoop | NewRunLoop | SetId | NotifyStarted
    | Looping | InTask(id: TaskId)
    | ClearId | DeleteLoop | ClearLoop | DeleteRunLoop | ClearRunLoop
    | Exited

  datatype Op = StartUp | DoInThread(id: TaskId) | ShutDown

  /** The API call that holds api_mutex_, and its next statement. */
  datatype Holder =
    | Free
    | Entered(op: Op)      // about to test thread_ or message_loop_
    | WaitingForStart      // in start_up_barrier->WaitForExecution()
    | Posting(id: TaskId)  // about to call PostTask through message_loop_
    | PostingQuit          // about to post the quit closure through message_loop_ and run_loop_
    | Joining              // in thread_->join()

  datatype State = State(
    thread: bool, loop: Ptr, runLoop: Ptr, threadId: int,
    started: bool,        // the start-up barrier's flag
    queue: seq<Item>,
    quitWhenIdle: bool,
    worker: Worker,
    holder: Holder,
    accepted: seq<TaskId>, executed: seq<TaskId>)

  const INITIAL: State := State(false, Null, Null, -1, false, [], false, NoWorker, Free, [], [])

  datatype Action =
    | Call(op: Op)                // some thread takes api_mutex_ for an API call
    | Caller(postSucceeds: bool)  // the call holding the mutex takes its next step
    | Work(currentId: nat)        // the worker takes its next step

  ghost predicate Enabled(s: State, a: Action) {
    match a
    case Call(_) => s.holder.Free?
    case Caller(postSucceeds) =>
      (match s.holder
       case Free => false
       case Entered(_) => true
       case WaitingForStart => s.started
       case Posting(_) => true
       case PostingQuit => postSucceeds   // a failing post is LOG(FATAL)
       case Joining => s.worker.Exited?)
    case Work(_) =>
      !s.worker.NoWorker? && !s.worker.Exited?
      && (s.worker.Looping? ==> s.queue != [] || s.quitWhenIdle)
  }

  ghost function CallerStep(s: State, postSucceeds: bool): State {
    match s.holder
    case Free => s
    case Entered(StartUp) =>
      if s.thread then s.(holder := Free)
      else s.(thread := true, worker := NewLoop, started := false, holder := WaitingForStart)
    case Entered(DoInThread(id)) => if s.loop.Null? then s.(holder := Free) else s.(holder := Posting(id))
    case Entered(ShutDown) =>
      if !s.thread then s.(holder := Free)
      else if !s.loop.Null? then s.(holder := PostingQuit)
      else s.(holder := Joining)
    case WaitingForStart => s.(holder := Free)
    case Posting(id) =>
      if postSucceeds then s.(queue := s.queue + [Task(id)], accepted := s.accepted + [id], holder := Free)
      else s.(holder := Free)
    case PostingQuit => s.(queue := s.queue + [Quit], holder := Joining)
    case Joining => s.(thread := false, worker := NoWorker, holder := Free)
  }

  ghost function WorkerStep(s: State, currentId: nat): State {
    match s.worker
    case NoWorker => s
    case NewLoop => s.(loop := Live, worker := NewRunLoop)
    case NewRunLoop => s.(runLoop := Live, worker := SetId)
    case SetId => s.(threadId := currentId, worker := NotifyStarted)
    case NotifyStarted => s.(started := true, worker := Looping)
    case Looping =>
      if s.queue == [] then s.(quitWhenIdle := false, worker := ClearId)
      else if s.queue[0].Quit? then s.(queue := s.queue[1..], quitWhenIdle := true)
      else s.(queue := s.queue[1..], worker := InTask(s.queue[0].id))
    case InTask(id) => s.(executed := s.executed + [id], worker := Looping)
    case ClearId => s.(threadId := -1, worker := DeleteLoop)
    case DeleteLoop => s.(loop := Dangling, queue := [], worker := ClearLoop)
    case ClearLoop => s.(loop := Null, worker := DeleteRunLoop)
    case DeleteRunLoop => s.(runLoop := Dangling, worker := ClearRunLoop)
    case ClearRunLoop => s.(runLoop := Null, worker := Exited)
    case Exited => s
  }

  ghost function Do(s: State, a: Action): State {
    match a
    case Call(op) => s.(holder := Entered(op))
    case Caller(postSucceeds) => CallerStep(s, postSucceeds)
    case Work(currentId) => WorkerStep(s, currentId)
  }

  /** The state after a run of enabled actions, None if one of them was not enabled. */
  ghost function After(actions: seq<Action>): (r: Option<State>) {
    if actions == [] then Some(INITIAL)
    else
      var before := After(actions[..|actions| - 1]);
      var a := actions[|actions| - 1];
      if before.Some? && Enabled(before.value, a) then Some(Do(before.value, a)) else None
  }

  // ----- The invariant -----

  ghost function Tasks(queue: seq<Item>): seq<TaskId> {
    if queue == [] then []
    else (if queue[0].Task? then [queue[0].id] else []) + Tasks(queue[1..])
  }

  ghost predicate NoQuit(queue: seq<Item>) {
    forall i :: 0 <= i < |queue| ==> queue[i].Task?
  }

  predicate Starting(w: Worker) {
    w.NewLoop? || w.NewRunLoop? || w.SetId? || w.NotifyStarted?
  }

  predicate Serving(w: Worker) {
    w.Looping? || w.InTask?
  }

  predicate Stopping(w: Worker) {
    w.ClearId? || w.DeleteLoop? || w.ClearLoop? || w.DeleteRunLoop? || w.ClearRunLoop? || w.Exited?
  }

  /** All of the object's pointers are set and the id is the worker's. */
  ghost predicate Up(s: State) {
    s.thread && s.loop.Live? && s.runLoop.Live? && s.threadId >= 0
  }

  ghost predicate Down(s: State) {
    !s.thread && s.loop.Null? && s.runLoop.Null? && s.threadId == -1
  }

  /** The pointer fields agree with the worker's next statement. */
  ghost predicate Pointers(s: State) {
    match s.worker
    case NoWorker => Down(s)
    case NewLoop => s.thread && s.loop.Null? && s.runLoop.Null? && s.threadId == -1
    case NewRunLoop => s.thread && s.loop.Live? && s.runLoop.Null? && s.threadId == -1
    case SetId => s.thread && s.loop.Live? && s.runLoop.Live? && s.threadId == -1
    case NotifyStarted => Up(s)
    case Looping => Up(s)
    case InTask(_) => Up(s)
    case ClearId => Up(s)
    case DeleteLoop => s.thread && s.loop.Live? && s.runLoop.Live? && s.threadId == -1
    case ClearLoop => s.thread && s.loop.Dangling? && s.runLoop.Live? && s.threadId == -1
    case DeleteRunLoop => s.thread && s.loop.Null? && s.runLoop.Live? && s.threadId == -1
    case ClearRunLoop => s.thread && s.loop.Null? && s.runLoop.Dangling? && s.threadId == -1
    case Exited => s.thread && s.loop.Null? && s.runLoop.Null? && s.threadId == -1
  }

  /** Who may be holding the mutex while the worker is where it is. */
  ghost predicate Handshake(s: State) {
    && (Starting(s.worker) ==> s.holder.WaitingForStart? && !s.started)
    && (Stopping(s.worker) ==> s.holder.Joining?)
    && (s.holder.WaitingForStart? ==> Starting(s.worker) || (Serving(s.worker) && s.started))
    && (s.holder.Joining? ==> Serving(s.worker) || Stopping(s.worker))
    && (s.holder.Posting? || s.holder.PostingQuit? ==> Serving(s.worker))
  }

  /** Accepted tasks are the executed ones, then the running one, then the queued ones. */
  ghost predicate Ordered(s: State) {
    s.accepted == s.executed + (if s.worker.InTask? then [s.worker.id] else []) + Tasks(s.queue)
  }

  /** A quit is requested only by a joining ShutDown, and then it is last in the queue. */
  ghost predicate QuitLast(s: State) {
    if s.holder.Joining? && Serving(s.worker) then
      if s.quitWhenIdle then s.queue == []
      else s.queue != [] && s.queue[|s.queue| - 1].Quit? && NoQuit(s.queue[..|s.queue| - 1])
    else !s.quitWhenIdle && NoQuit(s.queue) && (!Serving(s.worker) ==> s.queue == [])
  }

  ghost predicate Inv(s: State) {
    Pointers(s) && Handshake(s) && Ordered(s) && QuitLast(s)
  }

  lemma {:induction false} TasksSnoc(queue: seq<Item>, x: Item)
    ensures Tasks(queue + [x]) == Tasks(queue) + if x.Task? then [x.id] else []
  {
    if queue == [] {
      assert [x][1..] == [];
    } else {
      TasksSnoc(queue[1..], x);
      assert (queue + [x])[1..] == queue[1..] + [x];
    }
  }

  lemma CallerShape(s: State, postSucceeds: bool)
    requires Inv(s) && Enabled(s, Caller(postSucceeds))
    ensures Pointers(CallerStep(s, postSucceeds)) && Handshake(CallerStep(s, postSucceeds))
  {
  }

  lemma CallerOrdered(s: State, postSucceeds: bool)
    requires Inv(s) && Enabled(s, Caller(postSucceeds))
    ensures Ordered(CallerStep(s, postSucceeds))
  {
    if s.holder.Posting? {
      PostedOrdered(s, Task(s.holder.id));
    } else if s.holder.PostingQuit? {
      PostedOrdered(s, Quit);
    }
  }

  lemma CallerQuitLast(s: State, postSucceeds: bool)
    requires Inv(s) && Enabled(s, Caller(postSucceeds))
    ensures QuitLast(CallerStep(s, postSucceeds))
  {
    if s.holder.PostingQuit? {
      assert (s.queue + [Quit])[..|s.queue|] == s.queue;
    }
  }

  /** A post appends to the accepted tasks exactly what it appends to the queued ones. */
  lemma PostedOrdered(s: State, x: Item)
    requires Ordered(s)
    ensures var more := if x.Task? then [x.id] else [];
            s.accepted + more == s.executed + (if s.worker.InTask? then [s.worker.id] else []) + Tasks(s.queue + [x])
  {
    TasksSnoc(s.queue, x);
    var done := s.executed + if s.worker.InTask? then [s.worker.id] else [];
    var more := if x.Task? then [x.id] else [];
    assert done + Tasks(s.queue) + more == done + (Tasks(s.queue) + more);
  }

  lemma WorkerShape(s: State, currentId: nat)
    requires Inv(s) && Enabled(s, Work(currentId))
    ensures Pointers(WorkerStep(s, currentId)) && Handshake(WorkerStep(s, currentId))
  {
  }

  lemma WorkerQueue(s: State, currentId: nat)
    requires Inv(s) && Enabled(s, Work(currentId))
    ensures Ordered(WorkerStep(s, currentId)) && QuitLast(WorkerStep(s, currentId))
  {
    if s.worker.Looping? && s.queue != [] {
      PopQueue(s);
    }
  }

  /** Taking the first item off the queue: a task starts, or the quit is received. */
  lemma PopQueue(s: State)
    requires Inv(s) && s.worker.Looping? && s.queue != []
    ensures Ordered(WorkerStep(s, 0)) && QuitLast(WorkerStep(s, 0))
  {
    PopOrdered(s);
    var rest := s.queue[1..];
    if s.holder.Joining? {
      if rest != [] {
        assert rest[..|rest| - 1] == s.queue[..|s.queue| - 1][1..];
        assert s.queue[0] == s.queue[..|s.queue| - 1][0];
      }
    } else {
      assert s.queue[0].Task?;
    }
  }

  lemma PopOrdered(s: State)
    requires Ordered(s) && s.worker.Looping? && s.queue != []
    ensures Ordered(WorkerStep(s, 0))
  {
    var done, rest := s.executed, Tasks(s.queue[1..]);
    if s.queue[0].Task? {
      assert done + [] + ([s.queue[0].id] + rest) == done + [s.queue[0].id] + rest;
    } else {
      assert done + [] + ([] + rest) == done + [] + rest;
    }
  }

  lemma StepInv(s: State, a: Action)
    requires Inv(s) && Enabled(s, a)
    ensures Inv(Do(s, a))
  {
    match a
    case Call(op) =>
    case Caller(postSucceeds) =>
      CallerShape(s, postSucceeds);
      CallerOrdered(s, postSucceeds);
      CallerQuitLast(s, postSucceeds);
    case Work(currentId) =>
      WorkerShape(s, currentId);
      WorkerQueue(s, currentId);
  }

  lemma {:induction false} RunInv(actions: seq<Action>)
    requires After(actions).Some?
    ensures Inv(After(actions).value)
  {
    if actions != [] {
      RunInv(actions[..|actions| - 1]);
      StepInv(After(actions[..|actions| - 1]).value, actions[|actions| - 1]);
    }
  }

  /** In every interleaving, whenever api_mutex_ is free the thread, the message loop and
      the run loop are all set or all null, and the thread id is -1 exactly when they are
      null; and the executed tasks are a prefix of the accepted ones, in order. */
  lemma ConsistentWhenFree(actions: seq<Action>)
    requires After(actions).Some?
    ensures var s := After(actions).value;
            && s.executed <= s.accepted
            && (s.holder.Free? ==> Up(s) || Down(s))
            && (s.holder.Free? && Down(s) ==> s.executed == s.accepted)
  {
    RunInv(actions);
    Consequences(After(actions).value);
  }

  lemma Consequences(s: State)
    requires Inv(s)
    ensures s.executed <= s.accepted
    ensures s.holder.Free? ==> Up(s) || Down(s)
    ensures s.holder.Free? && Down(s) ==> s.executed == s.accepted
  {
    assert s.accepted == s.executed + ((if s.worker.InTask? then [s.worker.id] else []) + Tasks(s.queue));
  }

  /** When the join in ShutDown returns, every task ever accepted has been executed exactly
      once and in order, and the object is ready to be started again. */
  lemma ShutDownDrains(actions: seq<Action>, postSucceeds: bool)
    requires After(actions).Some? && After(actions).value.holder.Joining?
    requires Enabled(After(actions).value, Caller(postSucceeds))
    ensures var s := Do(After(actions).value, Caller(postSucceeds));
            s.executed == s.accepted && Down(s) && s.holder.Free?
  {
    RunInv(actions);
  }

  /** A call that is about to dereference a pointer finds a live object; in particular
      ShutDown always finds the loop and posts the quit. */
  lemma NoDanglingUse(actions: seq<Action>)
    requires After(actions).Some?
    ensures var s := After(actions).value;
            && (s.holder.Posting? ==> s.loop.Live?)
            && (s.holder.PostingQuit? ==> s.loop.Live? && s.runLoop.Live?)
            && (s.holder == Entered(ShutDown) && s.thread ==> s.loop.Live?)
            && (s.holder.Entered? ==> !s.loop.Dangling? && !s.runLoop.Dangling?)
  {
    RunInv(actions);
  }

  ghost predicate SharedChange(s: State, r: State) {
    s.loop != r.loop || s.runLoop != r.runLoop || s.threadId != r.threadId
  }

  /** The worker writes the unguarded fields only while the call that started it, or the
      call that is joining it, holds the mutex and is blocked. */
  lemma WorkerWritesUnderMutex(actions: seq<Action>, currentId: nat)
    requires After(actions).Some? && Enabled(After(actions).value, Work(currentId))
    requires SharedChange(After(actions).value, Do(After(actions).value, Work(currentId)))
    ensures After(actions).value.holder.WaitingForStart? || After(actions).value.holder.Joining?
  {
    RunInv(actions);
  }

  // ----- What each call brings about -----

  /** A call that has just taken the mutex finds the object fully up or fully down. */
  lemma EnteredUpOrDown(actions: seq<Action>)
    requires After(actions).Some? && After(actions).value.holder.Entered?
    ensures Up(After(actions).value) || Down(After(actions).value)
  {
    RunInv(actions);
  }

  /** DoInThread on a running thread hands its task over, last, exactly when the post succeeds;
      on a stopped one it does nothing. */
  lemma DoInThreadPosts(actions: seq<Action>, id: TaskId, posted: bool)
    requires After(actions).Some? && After(actions).value.holder == Entered(DoInThread(id))
    ensures var s := After(actions).value;
            var s1 := Do(s, Caller(posted));
            if Up(s) then
              && Enabled(s1, Caller(posted)) && s1 == s.(holder := Posting(id))
              && var r := Do(s1, Caller(posted));
                 if posted then r == s.(holder := Free, accepted := s.accepted + [id], queue := s.queue + [Task(id)])
                 else r == s.(holder := Free)
            else s1 == s.(holder := Free)
  {
    EnteredUpOrDown(actions);
  }

  /** StartUp on a stopped object: the call waits, four steps of the worker let it return, and
      the object is up with the id that the worker has; on a running one it does nothing. */
  lemma StartUpStarts(actions: seq<Action>, posted: bool, currentId: nat)
    requires After(actions).Some? && After(actions).value.holder == Entered(StartUp)
    ensures var s := After(actions).value;
            var s1 := Do(s, Caller(posted));
            if Down(s) then
              && s1.holder.WaitingForStart? && !Enabled(s1, Caller(true)) && WorkAlone(s1, currentId, 4).Some?
              && var r := WorkAlone(s1, currentId, 4).value;
                 && Enabled(r, Caller(true))
                 && var t := Do(r, Caller(true));
                    t.holder.Free? && Up(t) && t.worker.Looping? && t.threadId == currentId
                    && t.accepted == s.accepted && t.executed == s.executed
            else s1 == s.(holder := Free)
  {
    RunInv(actions);
    var s := After(actions).value;
    if Down(s) {
      var s1 := Do(s, Caller(posted));
      FourSteps(s1, currentId);
    }
  }

  lemma FourSteps(s: State, currentId: nat)
    requires s.worker.NewLoop?
    ensures WorkAlone(s, currentId, 4)
         == Some(s.(loop := Live, runLoop := Live, threadId := currentId, started := true, worker := Looping))
  {
    var a := WorkerStep(s, currentId);
    var b := WorkerStep(a, currentId);
    var c := WorkerStep(b, currentId);
    var d := WorkerStep(c, currentId);
    assert WorkAlone(d, currentId, 0) == Some(d);
    assert WorkAlone(c, currentId, 1) == Some(d);
    assert WorkAlone(b, currentId, 2) == Some(d);
    assert WorkAlone(a, currentId, 3) == Some(d);
  }

  /** ShutDown on a running object: the call posts the quit and joins, the worker alone lets it
      return, and then the object is down with every accepted task executed; on a stopped one
      it does nothing. */
  lemma ShutDownStops(actions: seq<Action>, currentId: nat) returns (n: nat)
    requires After(actions).Some? && After(actions).value.holder == Entered(ShutDown)
    ensures var s := After(actions).value;
            var s1 := Do(s, Caller(true));
            if Up(s) then
              && Enabled(s1, Caller(true))
              && var s2 := Do(s1, Caller(true));
                 && s2 == s.(holder := Joining, queue := s.queue + [Quit]) && WorkAlone(s2, currentId, n).Some?
                 && var r := WorkAlone(s2, currentId, n).value;
                    && Enabled(r, Caller(true))
                    && var t := Do(r, Caller(true));
                       t.holder.Free? && Down(t) && t.accepted == t.executed == s.accepted
            else s1 == s.(holder := Free)
  {
    RunInv(actions);
    var s := After(actions).value;
    n := 0;
    if Up(s) {
      var s1 := Do(s, Caller(true));
      StepInv(s, Caller(true));
      StepInv(s1, Caller(true));
      var s2 := Do(s1, Caller(true));
      n := BlockedCallReturns(s2, currentId);
      WorkKeepsInv(s2, currentId, n);
    }
  }

  lemma {:induction false} WorkKeepsInv(s: State, currentId: nat, n: nat)
    requires Inv(s) && WorkAlone(s, currentId, n).Some?
    ensures Inv(WorkAlone(s, currentId, n).value)
    decreases n
  {
    if n > 0 {
      StepInv(s, Work(currentId));
      WorkKeepsInv(WorkerStep(s, currentId), currentId, n - 1);
    }
  }

  // ----- Progress of a blocked call -----

  /** Steps the worker can still take without a new post. */
  ghost function Remaining(s: State): nat {
    match s.worker
    case NoWorker => 0
    case NewLoop => 4
    case NewRunLoop => 3
    case SetId => 2
    case NotifyStarted => 1
    case Looping => 10 + 2 * |s.queue| + if s.quitWhenIdle then 0 else 1
    case InTask(_) => 11 + 2 * |s.queue| + if s.quitWhenIdle then 0 else 1
    case ClearId => 5
    case DeleteLoop => 4
    case ClearLoop => 3
    case DeleteRunLoop => 2
    case ClearRunLoop => 1
    case Exited => 0
  }

  /** A call blocked on the barrier or on the join is never stuck: either it can go on, or
      the worker can take a step, which leaves the call where it is and leaves fewer steps
      to take. */
  lemma BlockedStep(s: State, currentId: nat)
    requires Inv(s) && (s.holder.Joining? || s.holder.WaitingForStart?) && !Enabled(s, Caller(true))
    ensures Enabled(s, Work(currentId))
    ensures var r := WorkerStep(s, currentId);
            && r.holder == s.holder && r.accepted == s.accepted
            && (Enabled(r, Caller(true)) || Remaining(r) < Remaining(s))
  {
  }

  /** n steps of the worker alone, None if one of them was not enabled. */
  ghost function WorkAlone(s: State, currentId: nat, n: nat): (r: Option<State>)
    decreases n
  {
    if n == 0 then Some(s)
    else if Enabled(s, Work(currentId)) then WorkAlone(WorkerStep(s, currentId), currentId, n - 1)
    else None
  }

  /** Left alone, the worker lets a blocked call return after a bounded number of steps: from
      every reachable state StartUp gets its worker serving, and ShutDown gets every accepted
      task executed and the thread exited.  (Tasks are assumed to finish without calling the
      API themselves.) */
  lemma {:induction false} BlockedCallReturns(s: State, currentId: nat) returns (n: nat)
    requires Inv(s) && (s.holder.Joining? || s.holder.WaitingForStart?)
    ensures n <= Remaining(s) && WorkAlone(s, currentId, n).Some?
    ensures var r := WorkAlone(s, currentId, n).value;
            r.holder == s.holder && Enabled(r, Caller(true)) && r.accepted == s.accepted
            && (if s.holder.Joining? then r.worker.Exited? && r.executed == r.accepted else Up(r))
    decreases Remaining(s)
  {
    if Enabled(s, Caller(true)) {
      n := 0;
      CanReturn(s);
    } else {
      BlockedStep(s, currentId);
      StepInv(s, Work(currentId));
      var r := WorkerStep(s, currentId);
      if Enabled(r, Caller(true)) {
        n := 1;
        CanReturn(r);
        assert WorkAlone(r, currentId, 0) == Some(r);
      } else {
        var m := BlockedCallReturns(r, currentId);
        n := m + 1;
      }
    }
  }

  /** Where a blocked call can go on. */
  lemma CanReturn(s: State)
    requires Inv(s) && (s.holder.Joining? || s.holder.WaitingForStart?) && Enabled(s, Caller(true))
    ensures if s.holder.Joining? then s.worker.Exited? && s.executed == s.accepted else Up(s)
  {
  }
}
