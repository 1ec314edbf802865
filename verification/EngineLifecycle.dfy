/** The lazily created Trino engine that all query threads share
    (app/infrastructure/trino/client.py). Creation and clearing happen under one lock, disposal
    after it is released, and a query that timed out keeps running in its thread. */
module EngineLifecycle {
  import opened Wrappers

  /** Engines are numbered in the order in which the factory makes them. */
  type Engine = nat

  /** What the lock protects: `_engine`, and the factory that numbers the engines. */
  datatype Shared = Shared(current: Option<Engine>, created: nat)

  // ---------- The critical sections ----------

  function Acquire(s: Shared): (Shared, Engine) {
    match s.current
    case Some(e) => (s, e)
    case None => (Shared(Some(s.created), s.created + 1), s.created)
  }

  /** A failed query clears the field only if it still holds the query's own engine. */
  function ClearOwn(s: Shared, e: Engine): Shared {
    if s.current == Some(e) then s.(current := None) else s
  }

  /** A timeout or a close takes whichever engine the field holds. */
  function TakeCurrent(s: Shared): (Shared, Option<Engine>) {
    (s.(current := None), s.current)
  }

  /** The client object; `disposed` is what its calls to Engine.dispose have done. */
  class TrinoPythonClient {
    var engine: Option<Engine>
    var created: nat
    var disposed: set<Engine>

    ghost function View(): Shared
      reads this
    {
      Shared(engine, created)
    }

    constructor ()
      ensures View() == Shared(None, 0) && disposed == {}
    {
      engine, created, disposed := None, 0, {};
    }

    method GetEngine() returns (e: Engine)
      modifies this`engine, this`created
      ensures (View(), e) == Acquire(old(View()))
    {
      if engine.None? {
        engine := Some(created);
        created := created + 1;
      }
      return engine.value;
    }

    method DisposeEngine(e: Engine)
      modifies this`engine, this`disposed
      ensures View() == ClearOwn(old(View()), e) && disposed == old(disposed) + {e}
    {
      if engine == Some(e) {
        engine := None;
      }
      disposed := disposed + {e};
    }

    method DisposeCurrentEngine()
      modifies this`engine, this`disposed
      ensures View() == TakeCurrent(old(View())).0
      ensures disposed == old(disposed) + (if old(engine).Some? then {old(engine).value} else {})
    {
      var taken := engine;
      engine := None;
      if taken.Some? {
        disposed := disposed + {taken.value};
      }
    }

    method CloseSync()
      modifies this`engine, this`disposed
      ensures View() == TakeCurrent(old(View())).0
      ensures disposed == old(disposed) + (if old(engine).Some? then {old(engine).value} else {})
    {
      if engine.None? {
        return;
      }
      var taken := engine.value;
      engine := None;
      disposed := disposed + {taken};
    }

    /** One query alone: its engine survives a success and is retired by a failure. */
    method ExecuteSync(fails: bool) returns (e: Engine)
      modifies this
      ensures e == Acquire(old(View())).1
      ensures View() == if fails then ClearOwn(Acquire(old(View())).0, e) else Acquire(old(View())).0
      ensures disposed == old(disposed) + if fails then {e} else {}
    {
      e := GetEngine();
      if fails {
        DisposeEngine(e);
      }
    }
  }

  // ---------- Threads ----------

  /** The thread of one query: queued, inside `connect`/`execute`, in the except branch before the
      lock, after the lock with `dispose` still to call, done. */
  datatype Worker = Queued | Using(e: Engine) | Failed(e: Engine) | Owing(e: Engine) | WorkerDone

  /** The coroutine that awaits it: waiting, timed out, after the lock of the timeout branch. */
  datatype Caller = Waiting | TimedOut | Retiring(taken: Option<Engine>) | CallerDone

  datatype Closer = CloseQueued | Closing(taken: Option<Engine>) | CloseDone

  datatype Task = Query(worker: Worker, caller: Caller) | Close(closer: Closer)

  /** `cleared` lists the engines in the order in which they left `_engine`. */
  datatype State = State(shared: Shared, disposed: set<Engine>, cleared: seq<Engine>, tasks: seq<Task>)

  const START := State(Shared(None, 0), {}, [], [])

  datatype Event =
    | Call
    | CloseCall
    | GetEngine(i: nat)
    | FactoryRaises(i: nat)
    | NeverStarted(i: nat)
    | Succeed(i: nat)
    | Fail(i: nat)
    | LockAndClear(i: nat)
    | DisposeOwn(i: nat)
    | Return(i: nat)
    | Timeout(i: nat)
    | Cancel(i: nat)
    | LockAndTake(i: nat)
    | DisposeTaken(i: nat)
    | LockAndClose(i: nat)
    | DisposeClosed(i: nat)

  predicate IsQuery(s: State, i: nat) {
    i < |s.tasks| && s.tasks[i].Query?
  }

  predicate IsClose(s: State, i: nat) {
    i < |s.tasks| && s.tasks[i].Close?
  }

  predicate Enabled(s: State, e: Event) {
    match e
    case Call => true
    case CloseCall => true
    case GetEngine(i) => IsQuery(s, i) && s.tasks[i].worker.Queued?
    case FactoryRaises(i) => IsQuery(s, i) && s.tasks[i].worker.Queued? && s.shared.current.None?
    case NeverStarted(i) => IsQuery(s, i) && s.tasks[i].worker.Queued? && !s.tasks[i].caller.Waiting?
    case Succeed(i) => IsQuery(s, i) && s.tasks[i].worker.Using?
    case Fail(i) => IsQuery(s, i) && s.tasks[i].worker.Using?
    case LockAndClear(i) => IsQuery(s, i) && s.tasks[i].worker.Failed?
    case DisposeOwn(i) => IsQuery(s, i) && s.tasks[i].worker.Owing?
    case Return(i) => IsQuery(s, i) && s.tasks[i].caller.Waiting? && s.tasks[i].worker.WorkerDone?
    case Timeout(i) => IsQuery(s, i) && s.tasks[i].caller.Waiting?
    case Cancel(i) => IsQuery(s, i) && s.tasks[i].caller.Waiting?
    case LockAndTake(i) => IsQuery(s, i) && s.tasks[i].caller.TimedOut?
    case DisposeTaken(i) => IsQuery(s, i) && s.tasks[i].caller.Retiring?
    case LockAndClose(i) => IsClose(s, i) && s.tasks[i].closer.CloseQueued?
    case DisposeClosed(i) => IsClose(s, i) && s.tasks[i].closer.Closing?
  }

  function SetWorker(s: State, i: nat, w: Worker): State
    requires IsQuery(s, i)
  {
    s.(tasks := s.tasks[i := s.tasks[i].(worker := w)])
  }

  function SetCaller(s: State, i: nat, c: Caller): State
    requires IsQuery(s, i)
  {
    s.(tasks := s.tasks[i := s.tasks[i].(caller := c)])
  }

  function SetCloser(s: State, i: nat, c: Closer): State
    requires IsClose(s, i)
  {
    s.(tasks := s.tasks[i := Close(c)])
  }

  function Elems(o: Option<Engine>): set<Engine> {
    if o.Some? then {o.value} else {}
  }

  /** Replaces the shared fields and records an engine that left `_engine`. */
  function Publish(s: State, next: Shared): State {
    s.(shared := next,
       cleared := if s.shared.current.Some? && next.current.None?
           then s.cleared + [s.shared.current.value] else s.cleared)
  }

  function Step(s: State, e: Event): State
    requires Enabled(s, e)
  {
    match e
    case Call => s.(tasks := s.tasks + [Query(Queued, Waiting)])
    case CloseCall => s.(tasks := s.tasks + [Close(CloseQueued)])
    case GetEngine(i) => SetWorker(s.(shared := Acquire(s.shared).0), i, Using(Acquire(s.shared).1))
    case FactoryRaises(i) => SetWorker(s, i, WorkerDone)
    case NeverStarted(i) => SetWorker(s, i, WorkerDone)
    case Succeed(i) => SetWorker(s, i, WorkerDone)
    case Fail(i) => SetWorker(s, i, Failed(s.tasks[i].worker.e))
    case LockAndClear(i) =>
      SetWorker(Publish(s, ClearOwn(s.shared, s.tasks[i].worker.e)), i, Owing(s.tasks[i].worker.e))
    case DisposeOwn(i) => SetWorker(s.(disposed := s.disposed + {s.tasks[i].worker.e}), i, WorkerDone)
    case Return(i) => SetCaller(s, i, CallerDone)
    case Timeout(i) => SetCaller(s, i, TimedOut)
    case Cancel(i) => SetCaller(s, i, CallerDone)
    case LockAndTake(i) =>
      SetCaller(Publish(s, TakeCurrent(s.shared).0), i, Retiring(TakeCurrent(s.shared).1))
    case DisposeTaken(i) => SetCaller(s.(disposed := s.disposed + Elems(s.tasks[i].caller.taken)), i, CallerDone)
    case LockAndClose(i) =>
      SetCloser(Publish(s, TakeCurrent(s.shared).0), i, Closing(TakeCurrent(s.shared).1))
    case DisposeClosed(i) => SetCloser(s.(disposed := s.disposed + Elems(s.tasks[i].closer.taken)), i, CloseDone)
  }

  function Run(s: State, events: seq<Event>): Option<State>
    decreases |events|
  {
    if events == [] then Some(s)
    else if !Enabled(s, events[0]) then None
    else Run(Step(s, events[0]), events[1..])
  }

  // ---------- The invariant ----------

  /** The task has left the lock and has yet to dispose this engine. */
  predicate Owes(t: Task, e: Engine) {
    match t
    case Query(worker, caller) => worker == Owing(e) || caller == Retiring(Some(e))
    case Close(closer) => closer == Closing(Some(e))
  }

  /** The task holds this engine and has not yet entered the lock to give it up. */
  predicate Holds(t: Task, e: Engine) {
    t.Query? && (t.worker == Using(e) || t.worker == Failed(e))
  }

  predicate NoRepeats(es: seq<Engine>) {
    forall i, j :: 0 <= i < j < |es| ==> es[i] != es[j]
  }

  /** The current engine is the newest and was never cleared; each engine is current or was
      cleared, and was cleared once. */
  predicate Accounts(s: State) {
    && (s.shared.current.Some? ==> s.shared.current.value == s.shared.created - 1)
    && (forall e :: e in s.cleared ==> e < s.shared.created && s.shared.current != Some(e))
    && (forall e :: 0 <= e < s.shared.created ==> e in s.cleared || s.shared.current == Some(e))
    && NoRepeats(s.cleared)
    && s.shared.created == |s.cleared| + |Elems(s.shared.current)|
  }

  /** Held engines exist, owed and disposed ones were cleared, cleared ones are disposed or owed. */
  ghost predicate Debts(s: State) {
    && (forall i, e: Engine :: 0 <= i < |s.tasks| && Holds(s.tasks[i], e) ==> e < s.shared.created)
    && (forall i, e: Engine :: 0 <= i < |s.tasks| && Owes(s.tasks[i], e) ==> e in s.cleared)
    && (forall e :: e in s.disposed ==> e in s.cleared)
    && (forall e :: e in s.cleared ==> e in s.disposed || exists i :: 0 <= i < |s.tasks| && Owes(s.tasks[i], e))
  }

  ghost predicate Inv(s: State) {
    Accounts(s) && Debts(s)
  }

  lemma {:induction false} StepKeepsAccounts(s: State, e: Event)
    requires Inv(s) && Enabled(s, e)
    ensures Accounts(Step(s, e))
  {
  }

  /** Every hold and every debt after a step is older than it or belongs to its own engine. */
  lemma {:induction false} StepKeepsClaims(s: State, e: Event, j: nat, x: Engine)
    requires Inv(s) && Enabled(s, e) && j < |Step(s, e).tasks|
    ensures Holds(Step(s, e).tasks[j], x) ==> x < Step(s, e).shared.created
    ensures Owes(Step(s, e).tasks[j], x) ==> x in Step(s, e).cleared
  {
    if j < |s.tasks| {
      assert Holds(s.tasks[j], x) ==> x < s.shared.created;
      assert Owes(s.tasks[j], x) ==> x in s.cleared;
    }
  }

  /** A cleared engine stays disposed or owed: the step that clears it owes it from then on. */
  lemma {:induction false} StepKeepsDebts(s: State, e: Event)
    requires Inv(s) && Enabled(s, e)
    ensures Debts(Step(s, e))
  {
    var t := Step(s, e);
    StepKeepsAccounts(s, e);
    forall j, x: Engine | 0 <= j < |t.tasks| && Holds(t.tasks[j], x)
      ensures x < t.shared.created
    {
      StepKeepsClaims(s, e, j, x);
    }
    forall j, x: Engine | 0 <= j < |t.tasks| && Owes(t.tasks[j], x)
      ensures x in t.cleared
    {
      StepKeepsClaims(s, e, j, x);
    }
    forall x | x in t.cleared && x !in t.disposed
      ensures exists i :: 0 <= i < |t.tasks| && Owes(t.tasks[i], x)
    {
      if x in s.cleared {
        var i :| 0 <= i < |s.tasks| && Owes(s.tasks[i], x);
        assert Owes(t.tasks[i], x);
      } else {
        assert Owes(t.tasks[e.i], x);
      }
    }
  }

  lemma {:induction false} RunKeepsInv(s: State, events: seq<Event>)
    requires Inv(s) && Run(s, events).Some?
    ensures Inv(Run(s, events).value)
    ensures s.cleared <= Run(s, events).value.cleared
    decreases |events|
  {
    if events == [] {
    } else {
      StepKeepsDebts(s, events[0]);
      StepKeepsAccounts(s, events[0]);
      RunKeepsInv(Step(s, events[0]), events[1..]);
    }
  }

  // ---------- Over every interleaving ----------

  /** The engine in `_engine` was never disposed and nobody is about to dispose it; what a query
      gets from the lock is such an engine, and an engine some thread still holds without it being
      current is an older one that was cleared. */
  lemma {:induction false} CurrentEngineIsLive(events: seq<Event>)
    requires Run(START, events).Some?
    ensures var s := Run(START, events).value;
            && (forall e :: s.shared.current == Some(e) ==>
                  e !in s.disposed && forall i :: 0 <= i < |s.tasks| ==> !Owes(s.tasks[i], e))
            && Acquire(s.shared).1 !in s.disposed
            && (forall i, e: Engine :: 0 <= i < |s.tasks| && Holds(s.tasks[i], e) && s.shared.current != Some(e) ==>
                  e in s.cleared && (s.shared.current.Some? ==> e < s.shared.current.value))
  {
    RunKeepsInv(START, events);
  }

  /** An engine that was current and is not any more never becomes current again. */
  lemma {:induction false} RetiredNeverReturns(before: seq<Event>, e: Engine, between: seq<Event>, after: seq<Event>)
    requires Run(START, before).Some? && Run(START, before).value.shared.current == Some(e)
    requires Run(Run(START, before).value, between).Some?
    requires Run(Run(START, before).value, between).value.shared.current != Some(e)
    requires Run(Run(Run(START, before).value, between).value, after).Some?
    ensures Run(Run(Run(START, before).value, between).value, after).value.shared.current != Some(e)
  {
    var s := Run(START, before).value;
    RunKeepsInv(START, before);
    RunKeepsInv(s, between);
    var t := Run(s, between).value;
    CreatedGrows(s, between);
    assert e in t.cleared;
    RunKeepsInv(t, after);
    assert e in Run(t, after).value.cleared;
  }

  lemma {:induction false} CreatedGrows(s: State, events: seq<Event>)
    requires Run(s, events).Some?
    ensures s.shared.created <= Run(s, events).value.shared.created
    decreases |events|
  {
    if events == [] {
    } else {
      CreatedGrows(Step(s, events[0]), events[1..]);
    }
  }

  /** Which steps empty the field: exactly a query's that failed on this very engine, a timeout's and a
      close's. A failing thread leaves the current engine alone exactly when its own is an older one. */
  lemma {:induction false} WhoClears(events: seq<Event>, last: Event)
    requires Run(START, events).Some? && Enabled(Run(START, events).value, last)
    requires Run(START, events).value.shared.current.Some?
    ensures var s := Run(START, events).value;
            var c := s.shared.current.value;
            && (last.LockAndClear? ==>
                  (Step(s, last).shared == s.shared <==> s.tasks[last.i].worker.e < c))
            && (Step(s, last).shared.current == Some(c) || Step(s, last).shared.current == None)
            && (Step(s, last).shared.current == None <==>
                  || last.LockAndTake? || last.LockAndClose?
                  || (last.LockAndClear? && s.tasks[last.i].worker == Failed(c)))
  {
    RunKeepsInv(START, events);
    var s := Run(START, events).value;
    if last.LockAndClear? {
      assert Holds(s.tasks[last.i], s.tasks[last.i].worker.e);
    }
  }

  /** Engines made = engines cleared + the current one, each cleared once; and each made engine is
      exactly one of: current, or cleared and disposed or about to be. */
  lemma {:induction false} EngineAccounting(events: seq<Event>)
    requires Run(START, events).Some?
    ensures var s := Run(START, events).value;
            && s.shared.created == |s.cleared| + (if s.shared.current.Some? then 1 else 0)
            && NoRepeats(s.cleared)
            && forall e: Engine :: e < s.shared.created ==>
                 (s.shared.current == Some(e)
                  <==> !(e in s.disposed || exists i :: 0 <= i < |s.tasks| && Owes(s.tasks[i], e)))
  {
    RunKeepsInv(START, events);
  }

  // ---------- Who disposed an engine ----------

  /** The step decides that an engine has to go: a query on it fails, or a timeout or a close takes it. */
  predicate Retires(s: State, event: Event, e: Engine) {
    Enabled(s, event) &&
    match event
    case Fail(i) => s.tasks[i].worker == Using(e)
    case LockAndTake(_) => s.shared.current == Some(e)
    case LockAndClose(_) => s.shared.current == Some(e)
    case _ => false
  }

  /** Some step of the run retires the engine, and it is not a step of query i. */
  predicate RetiredByOther(s: State, events: seq<Event>, e: Engine, i: nat)
    decreases |events|
  {
    events != [] && Enabled(s, events[0])
    && ((Retires(s, events[0], e) && events[0].i != i) || RetiredByOther(Step(s, events[0]), events[1..], e, i))
  }

  /** The engine is disposed, or a task has decided to dispose it. */
  predicate GivenUp(s: State, e: Engine) {
    e in s.disposed || exists j :: 0 <= j < |s.tasks| && GivesUp(s.tasks[j], e)
  }

  predicate GivesUp(t: Task, e: Engine) {
    Owes(t, e) || (t.Query? && t.worker == Failed(e))
  }

  /** A task that decided to dispose an engine stays with it until the engine is disposed. */
  lemma {:induction false} GivenUpStays(s: State, events: seq<Event>, j: nat, e: Engine)
    requires j < |s.tasks| && GivesUp(s.tasks[j], e) && Run(s, events).Some?
    ensures var t := Run(s, events).value;
            j < |t.tasks| && (GivesUp(t.tasks[j], e) || e in t.disposed)
    decreases |events|
  {
    if events == [] {
    } else {
      var t := Step(s, events[0]);
      if GivesUp(t.tasks[j], e) {
        GivenUpStays(t, events[1..], j, e);
      } else {
        DisposedStays(t, events[1..], e);
        TasksStay(t, events[1..]);
      }
    }
  }

  lemma {:induction false} DisposedStays(s: State, events: seq<Event>, e: Engine)
    requires e in s.disposed && Run(s, events).Some?
    ensures e in Run(s, events).value.disposed
    decreases |events|
  {
    if events == [] {
    } else {
      DisposedStays(Step(s, events[0]), events[1..], e);
    }
  }

  lemma {:induction false} TasksStay(s: State, events: seq<Event>)
    requires Run(s, events).Some?
    ensures |s.tasks| <= |Run(s, events).value.tasks|
    decreases |events|
  {
    if events == [] {
    } else {
      TasksStay(Step(s, events[0]), events[1..]);
    }
  }

  /** Over every interleaving: the engine on which a query fails, and the engine that is current when a
      timeout or a close enters the lock, is given up by that very task, is current no more behind a timeout
      or a close, and is disposed once the task is finished. */
  lemma {:induction false} RetiredIsDisposed(before: seq<Event>, event: Event, e: Engine, after: seq<Event>)
    requires Run(START, before).Some? && Retires(Run(START, before).value, event, e)
    requires Run(Step(Run(START, before).value, event), after).Some?
    ensures var t := Step(Run(START, before).value, event);
            var u := Run(t, after).value;
            && event.i < |t.tasks| && GivesUp(t.tasks[event.i], e)
            && (event.LockAndTake? || event.LockAndClose? ==> t.shared.current.None?)
            && event.i < |u.tasks|
            && (Finished(u.tasks[event.i]) ==> e in u.disposed)
  {
    var t := Step(Run(START, before).value, event);
    GivenUpStays(t, after, event.i, e);
  }

  lemma {:induction false} StepGivesUp(s: State, event: Event, e: Engine)
    requires Enabled(s, event) && GivenUp(Step(s, event), e) && !Retires(s, event, e)
    ensures GivenUp(s, e)
  {
    var t := Step(s, event);
    if e in t.disposed {
      if e !in s.disposed {
        assert Owes(s.tasks[event.i], e);
      }
    } else {
      var j :| 0 <= j < |t.tasks| && GivesUp(t.tasks[j], e);
      if j < |s.tasks| {
        StepGivesUpTask(s, event, e, j);
      }
    }
  }

  lemma {:induction false} StepGivesUpTask(s: State, event: Event, e: Engine, j: nat)
    requires Enabled(s, event) && j < |s.tasks| && GivesUp(Step(s, event).tasks[j], e) && !Retires(s, event, e)
    ensures GivesUp(s.tasks[j], e)
  {
  }

  /** Query i is still inside its thread's `execute` or before it, and its caller still waits. */
  predicate StillWaiting(s: State, i: nat) {
    i < |s.tasks| ==>
      s.tasks[i].Query? && (s.tasks[i].worker.Using? || s.tasks[i].worker.Queued?) && s.tasks[i].caller.Waiting?
  }

  /** A query that is still waiting was never anything else, so none of its steps retires an engine. */
  lemma {:induction false} WaitingSteps(s: State, event: Event, i: nat)
    requires Enabled(s, event) && StillWaiting(Step(s, event), i)
    ensures StillWaiting(s, i)
    ensures forall e :: Retires(s, event, e) ==> event.i != i
  {
  }

  lemma {:induction false} WaitingRuns(s: State, events: seq<Event>, i: nat)
    requires Run(s, events).Some? && StillWaiting(Run(s, events).value, i)
    ensures StillWaiting(s, i)
    decreases |events|
  {
    if events == [] {
    } else {
      WaitingRuns(Step(s, events[0]), events[1..], i);
      WaitingSteps(s, events[0], i);
    }
  }

  lemma {:induction false} GivenUpWasRetired(s: State, events: seq<Event>, e: Engine, i: nat)
    requires Run(s, events).Some? && StillWaiting(Run(s, events).value, i)
    requires GivenUp(Run(s, events).value, e) && !GivenUp(s, e)
    ensures RetiredByOther(s, events, e, i)
    decreases |events|
  {
    if events == [] {
    } else {
      var t := Step(s, events[0]);
      WaitingRuns(t, events[1..], i);
      WaitingSteps(s, events[0], i);
      if GivenUp(t, e) {
        if !Retires(s, events[0], e) { StepGivesUp(s, events[0], e); }
      } else {
        GivenUpWasRetired(t, events[1..], e, i);
      }
    }
  }

  /** Over every interleaving: the engine of a query that is still waiting was disposed, or is about to
      be, only because another query on it failed, or another caller's timeout or a close took it. */
  lemma {:induction false} DisposedUnderAQuery(events: seq<Event>, i: nat, e: Engine)
    requires Run(START, events).Some?
    requires var s := Run(START, events).value;
             && IsQuery(s, i) && s.tasks[i] == Query(Using(e), Waiting)
             && (e in s.disposed || exists j :: 0 <= j < |s.tasks| && Owes(s.tasks[j], e))
    ensures RetiredByOther(START, events, e, i)
  {
    var s := Run(START, events).value;
    assert GivenUp(s, e) by {
      if e !in s.disposed {
        var j :| 0 <= j < |s.tasks| && Owes(s.tasks[j], e);
        assert GivesUp(s.tasks[j], e);
      }
    }
    GivenUpWasRetired(START, events, e, i);
  }

  // ---------- What each thread does, in order ----------

  /** The steps of the worker of query i among the events. */
  function WorkerSteps(events: seq<Event>, i: nat): seq<Event> {
    if events == [] then []
    else WorkerSteps(events[..|events| - 1], i)
         + (if IsWorkerStep(events[|events| - 1], i) then [events[|events| - 1]] else [])
  }

  predicate IsWorkerStep(event: Event, i: nat) {
    event in {GetEngine(i), FactoryRaises(i), NeverStarted(i), Succeed(i), Fail(i), LockAndClear(i), DisposeOwn(i)}
  }

  function CallerSteps(events: seq<Event>, i: nat): seq<Event> {
    if events == [] then []
    else CallerSteps(events[..|events| - 1], i)
         + (if IsCallerStep(events[|events| - 1], i) then [events[|events| - 1]] else [])
  }

  predicate IsCallerStep(event: Event, i: nat) {
    event in {Return(i), Timeout(i), Cancel(i), LockAndTake(i), DisposeTaken(i)}
  }

  function CloserSteps(events: seq<Event>, i: nat): seq<Event> {
    if events == [] then []
    else CloserSteps(events[..|events| - 1], i)
         + (if events[|events| - 1] in {LockAndClose(i), DisposeClosed(i)} then [events[|events| - 1]] else [])
  }

  /** A thread gets an engine and succeeds, or fails and then clears and disposes; or it gets none. */
  predicate WorkerOrder(w: Worker, steps: seq<Event>, i: nat) {
    match w
    case Queued => steps == []
    case Using(_) => steps == [GetEngine(i)]
    case Failed(_) => steps == [GetEngine(i), Fail(i)]
    case Owing(_) => steps == [GetEngine(i), Fail(i), LockAndClear(i)]
    case WorkerDone =>
      || steps == [GetEngine(i), Succeed(i)]
      || steps == [GetEngine(i), Fail(i), LockAndClear(i), DisposeOwn(i)]
      || steps == [FactoryRaises(i)]
      || steps == [NeverStarted(i)]
  }

  /** A caller returns or is cancelled, or it times out and then takes and disposes the current engine. */
  predicate CallerOrder(c: Caller, steps: seq<Event>, i: nat) {
    match c
    case Waiting => steps == []
    case TimedOut => steps == [Timeout(i)]
    case Retiring(_) => steps == [Timeout(i), LockAndTake(i)]
    case CallerDone =>
      steps == [Return(i)] || steps == [Cancel(i)] || steps == [Timeout(i), LockAndTake(i), DisposeTaken(i)]
  }

  predicate CloserOrder(c: Closer, steps: seq<Event>, i: nat) {
    match c
    case CloseQueued => steps == []
    case Closing(_) => steps == [LockAndClose(i)]
    case CloseDone => steps == [LockAndClose(i), DisposeClosed(i)]
  }

  predicate InOrder(t: Task, events: seq<Event>, i: nat) {
    match t
    case Query(worker, caller) =>
      WorkerOrder(worker, WorkerSteps(events, i), i) && CallerOrder(caller, CallerSteps(events, i), i)
    case Close(closer) => CloserOrder(closer, CloserSteps(events, i), i)
  }

  /** No step of a task that is not there yet. */
  predicate NoSteps(events: seq<Event>, i: nat) {
    WorkerSteps(events, i) == [] && CallerSteps(events, i) == [] && CloserSteps(events, i) == []
  }

  ghost predicate AllInOrder(s: State, events: seq<Event>) {
    && (forall i :: 0 <= i < |s.tasks| ==> InOrder(s.tasks[i], events, i))
    && (forall i: nat :: i >= |s.tasks| ==> NoSteps(events, i))
  }

  lemma {:induction false} StepsNext(events: seq<Event>, event: Event, i: nat)
    ensures WorkerSteps(events + [event], i) == WorkerSteps(events, i) + if IsWorkerStep(event, i) then [event] else []
    ensures CallerSteps(events + [event], i) == CallerSteps(events, i) + if IsCallerStep(event, i) then [event] else []
    ensures CloserSteps(events + [event], i)
         == CloserSteps(events, i) + if event in {LockAndClose(i), DisposeClosed(i)} then [event] else []
  {
    assert (events + [event])[..|events|] == events;
  }

  lemma {:induction false} TaskMovesOn(s: State, event: Event, i: nat)
    requires Enabled(s, event) && i < |s.tasks|
    ensures i < |Step(s, event).tasks| && Step(s, event).tasks[i].Query? == s.tasks[i].Query?
  {
  }

  lemma {:induction false} NewTaskIsIdle(s: State, event: Event, i: nat)
    requires Enabled(s, event) && i >= |s.tasks|
    ensures !IsWorkerStep(event, i) && !IsCallerStep(event, i) && event !in {LockAndClose(i), DisposeClosed(i)}
    ensures i < |Step(s, event).tasks| ==> Step(s, event).tasks[i] in {Query(Queued, Waiting), Close(CloseQueued)}
  {
  }

  lemma {:induction false} WorkerMovesOn(s: State, event: Event, i: nat, steps: seq<Event>)
    requires Enabled(s, event) && IsQuery(s, i) && WorkerOrder(s.tasks[i].worker, steps, i)
    requires IsQuery(Step(s, event), i)
    ensures WorkerOrder(Step(s, event).tasks[i].worker, steps + if IsWorkerStep(event, i) then [event] else [], i)
  {
    if !IsWorkerStep(event, i) {
      assert Step(s, event).tasks[i].worker == s.tasks[i].worker;
      assert steps + [] == steps;
    }
  }

  lemma {:induction false} CallerMovesOn(s: State, event: Event, i: nat, steps: seq<Event>)
    requires Enabled(s, event) && IsQuery(s, i) && CallerOrder(s.tasks[i].caller, steps, i)
    requires IsQuery(Step(s, event), i)
    ensures CallerOrder(Step(s, event).tasks[i].caller, steps + if IsCallerStep(event, i) then [event] else [], i)
  {
    if !IsCallerStep(event, i) {
      assert Step(s, event).tasks[i].caller == s.tasks[i].caller;
      assert steps + [] == steps;
    }
  }

  lemma {:induction false} CloserMovesOn(s: State, event: Event, i: nat, steps: seq<Event>)
    requires Enabled(s, event) && IsClose(s, i) && CloserOrder(s.tasks[i].closer, steps, i)
    requires IsClose(Step(s, event), i)
    ensures CloserOrder(Step(s, event).tasks[i].closer,
                        steps + if event in {LockAndClose(i), DisposeClosed(i)} then [event] else [], i)
  {
    if event !in {LockAndClose(i), DisposeClosed(i)} {
      assert Step(s, event).tasks[i].closer == s.tasks[i].closer;
      assert steps + [] == steps;
    }
  }

  lemma {:induction false} StepKeepsOrder(s: State, events: seq<Event>, event: Event, i: nat)
    requires AllInOrder(s, events) && Enabled(s, event)
    ensures i < |Step(s, event).tasks| ==> InOrder(Step(s, event).tasks[i], events + [event], i)
    ensures i >= |Step(s, event).tasks| ==> NoSteps(events + [event], i)
  {
    StepsNext(events, event, i);
    if i < |s.tasks| {
      assert InOrder(s.tasks[i], events, i);
      TaskMovesOn(s, event, i);
      if s.tasks[i].Query? {
        WorkerMovesOn(s, event, i, WorkerSteps(events, i));
        CallerMovesOn(s, event, i, CallerSteps(events, i));
      } else {
        CloserMovesOn(s, event, i, CloserSteps(events, i));
      }
    } else {
      assert NoSteps(events, i);
      NewTaskIsIdle(s, event, i);
    }
  }

  lemma {:induction false} RunKeepsOrder(s: State, past: seq<Event>, events: seq<Event>)
    requires AllInOrder(s, past) && Run(s, events).Some?
    ensures AllInOrder(Run(s, events).value, past + events)
    decreases |events|
  {
    if events == [] {
      assert past + events == past;
    } else {
      var t := Step(s, events[0]);
      forall i: nat ensures i < |t.tasks| ==> InOrder(t.tasks[i], past + [events[0]], i)
                    ensures i >= |t.tasks| ==> NoSteps(past + [events[0]], i)
      {
        StepKeepsOrder(s, past, events[0], i);
      }
      RunKeepsOrder(t, past + [events[0]], events[1..]);
      assert past + [events[0]] + events[1..] == past + events;
    }
  }

  /** Over every interleaving each thread, caller and close has done exactly the steps that its program
      prescribes for where it is, in that order: nothing is skipped, repeated or exchanged. */
  lemma {:induction false} ThreadsFollowTheProgram(events: seq<Event>)
    requires Run(START, events).Some?
    ensures AllInOrder(Run(START, events).value, events)
  {
    assert [] + events == events;
    RunKeepsOrder(START, [], events);
  }

  // ---------- The end ----------

  predicate Finished(t: Task) {
    match t
    case Query(worker, caller) => worker.WorkerDone? && caller.CallerDone?
    case Close(closer) => closer.CloseDone?
  }

  predicate Quiescent(s: State) {
    forall i :: 0 <= i < |s.tasks| ==> Finished(s.tasks[i])
  }

  /** Once all threads are done, every engine made was disposed exactly when none is current. */
  lemma {:induction false} QuiescentDisposal(events: seq<Event>)
    requires Run(START, events).Some? && Quiescent(Run(START, events).value)
    ensures var s := Run(START, events).value;
            (forall e: Engine :: e < s.shared.created ==> e in s.disposed) <==> s.shared.current.None?
  {
    RunKeepsInv(START, events);
    var s := Run(START, events).value;
    assert forall i, e: Engine :: 0 <= i < |s.tasks| ==> Finished(s.tasks[i]) && !Owes(s.tasks[i], e);
  }

  /** No query thread reaches the lock among these events. */
  predicate NoneMade(events: seq<Event>) {
    forall e :: e in events ==> !e.GetEngine?
  }

  lemma {:induction false} NoneMadeNoneCurrent(s: State, events: seq<Event>)
    requires s.shared.current.None? && NoneMade(events) && Run(s, events).Some?
    ensures Run(s, events).value.shared == s.shared
    decreases |events|
  {
    if events == [] {
    } else {
      assert events[0] in events;
      assert Step(s, events[0]).shared == s.shared;
      NoneMadeNoneCurrent(Step(s, events[0]), events[1..]);
    }
  }

  /** After a close behind which no thread reaches the lock for an engine, the end is clean: when all
      threads are done, every engine made was disposed. */
  lemma {:induction false} CloseIsFinal(before: seq<Event>, i: nat, after: seq<Event>)
    requires Run(START, before).Some? && Enabled(Run(START, before).value, LockAndClose(i))
    requires var closed := Step(Run(START, before).value, LockAndClose(i));
             NoneMade(after) && Run(closed, after).Some? && Quiescent(Run(closed, after).value)
    ensures var s := Run(Step(Run(START, before).value, LockAndClose(i)), after).value;
            s.shared.current.None? && forall e: Engine :: e < s.shared.created ==> e in s.disposed
  {
    var s0 := Run(START, before).value;
    RunKeepsInv(START, before);
    var closed := Step(s0, LockAndClose(i));
    StepKeepsDebts(s0, LockAndClose(i));
    StepKeepsAccounts(s0, LockAndClose(i));
    NoneMadeNoneCurrent(closed, after);
    RunKeepsInv(closed, after);
    var s := Run(closed, after).value;
    assert forall j, e: Engine :: 0 <= j < |s.tasks| ==> Finished(s.tasks[j]) && !Owes(s.tasks[j], e);
  }

  /** The condition is needed. In every reachable state in which a close is done, no engine is current
      and one query is still queued, that query makes an engine which nobody disposes, however well it
      ends. */
  lemma {:induction false} LateQueryLeaks(before: seq<Event>, close: nat, i: nat)
    requires Run(START, before).Some?
    requires var s := Run(START, before).value;
             && IsClose(s, close) && s.tasks[close].closer.CloseDone?
             && s.shared.current.None? && IsQuery(s, i) && s.tasks[i] == Query(Queued, Waiting)
             && forall j :: 0 <= j < |s.tasks| && j != i ==> Finished(s.tasks[j])
    ensures var events := [GetEngine(i), Succeed(i), Return(i)];
            var s := Run(START, before).value;
            && Run(s, events).Some? && Quiescent(Run(s, events).value)
            && Run(s, events).value.shared == Shared(Some(s.shared.created), s.shared.created + 1)
            && s.shared.created !in Run(s, events).value.disposed
  {
    RunKeepsInv(START, before);
    var s := Run(START, before).value;
    var s1 := Step(s, GetEngine(i));
    var s2 := Step(s1, Succeed(i));
    var s3 := Step(s2, Return(i));
    assert Run(s2, [Return(i)]) == Run(s3, []);
    assert Run(s1, [Succeed(i), Return(i)]) == Run(s2, [Return(i)]);
    assert s3.tasks[i] == Query(WorkerDone, CallerDone);
    assert forall j :: 0 <= j < |s.tasks| && j != i ==> s3.tasks[j] == s.tasks[j];
  }

  const EARLY_CLOSE := [Call, CloseCall, LockAndClose(1), DisposeClosed(1)]

  lemma {:induction false} EarlyCloseRuns()
    ensures Run(START, EARLY_CLOSE) == Some(State(Shared(None, 0), {}, [], [Query(Queued, Waiting), Close(CloseDone)]))
  {
    var s1 := State(Shared(None, 0), {}, [], [Query(Queued, Waiting)]);
    var s2 := State(Shared(None, 0), {}, [], [Query(Queued, Waiting), Close(CloseQueued)]);
    var s3 := State(Shared(None, 0), {}, [], [Query(Queued, Waiting), Close(Closing(None))]);
    var s4 := State(Shared(None, 0), {}, [], [Query(Queued, Waiting), Close(CloseDone)]);
    assert Step(START, Call) == s1 && Step(s1, CloseCall) == s2;
    assert Step(s2, LockAndClose(1)) == s3 && Step(s3, DisposeClosed(1)) == s4;
    assert Run(s3, [DisposeClosed(1)]) == Run(s4, []);
    assert Run(s2, [LockAndClose(1), DisposeClosed(1)]) == Run(s3, [DisposeClosed(1)]);
    assert Run(s1, [CloseCall, LockAndClose(1), DisposeClosed(1)]) == Run(s2, [LockAndClose(1), DisposeClosed(1)]);
    assert EARLY_CLOSE[1..] == [CloseCall, LockAndClose(1), DisposeClosed(1)];
  }

  /** One such run: a query is called, the client is closed before the thread starts, and the thread
      then makes an engine that stays current and is never disposed. */
  lemma {:induction false} EarlyCloseLeaks()
    ensures Run(START, EARLY_CLOSE).Some?
    ensures var end := Run(Run(START, EARLY_CLOSE).value, [GetEngine(0), Succeed(0), Return(0)]);
            end.Some? && Quiescent(end.value) && end.value.shared.current == Some(0) && 0 !in end.value.disposed
  {
    EarlyCloseRuns();
    LateQueryLeaks(EARLY_CLOSE, 1, 0);
  }
}
