/** The shutdown protocol inside `main` of cmd/mcpproxy-tray/main.go: any number
    of callers of `shutdownFunc`, a sync.Once, one worker goroutine that may
    panic at any point, and the channel `shutdownComplete`. Every atomic step of
    every goroutine is one transition; a run is any sequence of enabled steps. */
module TrayShutdown {
  import opened Strings

  // ----- the system -----

  /** Where one call of `shutdownFunc` stands. `first` is the local `firstCaller`. */
  datatype Caller =
    | Outside
    | AtOnce
    | InOnce(spawned: bool)
    | AfterOnce(first: bool)
    | Returned(first: bool)

  datatype Once = Fresh | Busy(owner: nat) | Done(owner: nat)

  /** `inTask` while the call that performs the next task has not returned. */
  datatype Worker = NotStarted | Running(inTask: bool) | Deferred(panicked: bool) | Ended(panicked: bool)

  /** What the worker does, in order; it skips the launcher and the tray while
      these variables are still nil. */
  datatype Task = NotifyMachine | StopLauncher | StopMachine | CancelContext | Sleep | QuitTray

  /** A task the worker is past: its call has returned, or it was skipped. */
  datatype Entry = Entry(task: Task, performed: bool)

  datatype State = State(
    callers: seq<Caller>,
    once: Once,
    worker: Worker,
    log: seq<Entry>,
    closes: nat,
    launcher: bool,
    trayApp: bool)

  function Program(): (tasks: seq<Task>)
    ensures |tasks| == 6
  {
    [NotifyMachine, StopLauncher, StopMachine, CancelContext, Sleep, QuitTray]
  }

  datatype Step =
    | AssignTrayApp
    | AssignLauncher
    | Call(i: nat)
    | Enter(i: nat)
    | Spawn(i: nat)
    | LeaveOnce(i: nat)
    | Return(i: nat)
    | Begin
    | Complete
    | Panic
    | Finish
    | Close

  function Start(n: nat): State {
    State(seq(n, i => Outside), Fresh, NotStarted, [], 0, false, false)
  }

  predicate IsAt(s: State, i: nat, c: Caller) {
    i < |s.callers| && s.callers[i] == c
  }

  function Move(s: State, i: nat, c: Caller): State
    requires i < |s.callers|
  {
    s.(callers := s.callers[i := c])
  }

  predicate Performs(s: State, task: Task) {
    match task
    case StopLauncher => s.launcher
    case QuitTray => s.trayApp
    case _ => true
  }

  /** The state after a step, if the step is enabled. `Once.Do` lets its first
      caller in, holds the others back while that one is inside, and afterwards
      lets them pass without running the function. */
  function Apply(s: State, step: Step): Option<State> {
    match step
    case AssignTrayApp => if s.trayApp then None else Some(s.(trayApp := true))
    case AssignLauncher => if s.launcher || !s.trayApp then None else Some(s.(launcher := true))
    case Call(i) => if IsAt(s, i, Outside) then Some(Move(s, i, AtOnce)) else None
    case Enter(i) =>
      if !IsAt(s, i, AtOnce) || s.once.Busy? then None
      else if s.once.Done? then Some(Move(s, i, AfterOnce(false)))
      else Some(Move(s, i, InOnce(false)).(once := Busy(i)))
    case Spawn(i) =>
      if IsAt(s, i, InOnce(false)) then Some(Move(s, i, InOnce(true)).(worker := Running(false))) else None
    case LeaveOnce(i) =>
      if IsAt(s, i, InOnce(true)) then Some(Move(s, i, AfterOnce(true)).(once := Done(i))) else None
    case Return(i) =>
      if IsAt(s, i, AfterOnce(true)) then Some(Move(s, i, Returned(true)))
      else if IsAt(s, i, AfterOnce(false)) && s.closes > 0 then Some(Move(s, i, Returned(false)))
      else None
    case Begin =>
      if s.worker != Running(false) || |s.log| >= |Program()| then None
      else if Performs(s, Program()[|s.log|]) then Some(s.(worker := Running(true)))
      else Some(s.(log := s.log + [Entry(Program()[|s.log|], false)]))
    case Complete =>
      if s.worker != Running(true) || |s.log| >= |Program()| then None
      else Some(s.(log := s.log + [Entry(Program()[|s.log|], true)], worker := Running(false)))
    case Panic => if s.worker.Running? then Some(s.(worker := Deferred(true))) else None
    case Finish =>
      if s.worker == Running(false) && |s.log| == |Program()| then Some(s.(worker := Deferred(false))) else None
    case Close =>
      if s.worker.Deferred? then Some(s.(worker := Ended(s.worker.panicked), closes := s.closes + 1)) else None
  }

  /** The state after a run, if every step was enabled in its turn. */
  function Run(s: State, steps: seq<Step>): Option<State>
    decreases |steps|
  {
    if steps == [] then Some(s)
    else
      var next := Apply(s, steps[0]);
      if next.None? then None else Run(next.value, steps[1..])
  }

  // ----- the invariant -----

  /** Before the once is entered nobody is past it; its owner alone is inside
      or has `firstCaller` set; a caller that is not the first waits for the close. */
  predicate CallerFits(s: State, i: nat)
    requires i < |s.callers|
  {
    match s.callers[i]
    case Outside => s.once.Fresh? || s.once.owner != i
    case AtOnce => s.once.Fresh? || s.once.owner != i
    case InOnce(spawned) => s.once == Busy(i) && (s.worker.NotStarted? <==> !spawned)
    case AfterOnce(first) => s.once.Done? && (first <==> s.once.owner == i)
    case Returned(first) => s.once.Done? && (first <==> s.once.owner == i) && (first || s.closes > 0)
  }

  predicate Passed(log: seq<Entry>, k: nat)
    requires k < |log| <= |Program()|
  {
    log[k].task == Program()[k] && (log[k].task.StopLauncher? || log[k].task.QuitTray? || log[k].performed)
  }

  /** Neither the launcher nor the tray is called while it is nil. */
  predicate OnlyAssigned(s: State) {
    && (|s.log| > 1 && s.log[1].performed ==> s.launcher)
    && (|s.log| > 5 && s.log[5].performed ==> s.trayApp)
    && (s.worker == Running(true) && |s.log| == 1 ==> s.launcher)
    && (s.worker == Running(true) && |s.log| == 5 ==> s.trayApp)
  }

  ghost predicate Inv(s: State) {
    && (forall i: nat :: i < |s.callers| ==> CallerFits(s, i))
    && (s.once.Fresh? ==> s.worker.NotStarted?)
    && (s.once.Busy? ==> s.once.owner < |s.callers| && s.callers[s.once.owner].InOnce?)
    && (s.once.Done? ==> s.once.owner < |s.callers| && !s.worker.NotStarted?)
    && (s.worker.NotStarted? ==> s.log == [])
    && |s.log| <= |Program()|
    && (s.worker == Running(true) ==> |s.log| < |Program()|)
    && (forall k: nat :: k < |s.log| ==> Passed(s.log, k))
    && OnlyAssigned(s)
    && s.closes == (if s.worker.Ended? then 1 else 0)
    && ((s.worker.Deferred? || s.worker.Ended?) && !s.worker.panicked ==> |s.log| == |Program()|)
  }

  lemma {:induction false} StartIsGood(n: nat)
    ensures Inv(Start(n))
  {}

  lemma {:induction false} CallerStepKeepsInvariant(s: State, step: Step)
    requires Inv(s) && Apply(s, step).Some?
    requires step.Call? || step.Enter? || step.Spawn? || step.LeaveOnce? || step.Return?
    ensures Inv(Apply(s, step).value)
  {
    hide Inv, Apply;
    if step.Enter? {
      EnterKeepsInvariant(s, step);
    } else if step.Call? || step.Return? {
      CallAndReturnKeepInvariant(s, step);
    } else {
      OwnerStepKeepsInvariant(s, step);
    }
  }

  lemma {:induction false} EnterKeepsInvariant(s: State, step: Step)
    requires Inv(s) && Apply(s, step).Some? && step.Enter?
    ensures Inv(Apply(s, step).value)
  {
    var t := Apply(s, step).value;
    assert CallerFits(s, step.i);
    forall j: nat | j < |t.callers| ensures CallerFits(t, j) {
      assert CallerFits(s, j);
    }
  }

  lemma {:induction false} CallAndReturnKeepInvariant(s: State, step: Step)
    requires Inv(s) && Apply(s, step).Some? && (step.Call? || step.Return?)
    ensures Inv(Apply(s, step).value)
  {
    var t := Apply(s, step).value;
    assert CallerFits(s, step.i);
    forall j: nat | j < |t.callers| ensures CallerFits(t, j) {
      assert CallerFits(s, j);
    }
  }

  lemma {:induction false} OwnerStepKeepsInvariant(s: State, step: Step)
    requires Inv(s) && Apply(s, step).Some? && (step.Spawn? || step.LeaveOnce?)
    ensures Inv(Apply(s, step).value)
  {
    var t := Apply(s, step).value;
    assert CallerFits(s, step.i);
    forall j: nat | j < |t.callers| ensures CallerFits(t, j) {
      assert CallerFits(s, j);
    }
  }

  lemma {:induction false} WorkerStepKeepsInvariant(s: State, step: Step)
    requires Inv(s) && Apply(s, step).Some?
    requires step.AssignTrayApp? || step.AssignLauncher? || step.Begin? || step.Complete? || step.Panic? ||
      step.Finish? || step.Close?
    ensures Inv(Apply(s, step).value)
  {
    var t := Apply(s, step).value;
    forall j: nat | j < |t.callers| ensures CallerFits(t, j) {
      assert CallerFits(s, j);
    }
    forall k: nat | k < |t.log| ensures Passed(t.log, k) {
      assert k < |s.log| ==> Passed(s.log, k);
    }
  }

  lemma {:induction false} RunKeepsInvariant(s: State, steps: seq<Step>)
    requires Inv(s) && Run(s, steps).Some?
    ensures Inv(Run(s, steps).value)
    decreases |steps|
  {
    hide Inv, Apply;
    if steps != [] {
      var step := steps[0];
      if step.Call? || step.Enter? || step.Spawn? || step.LeaveOnce? || step.Return? {
        CallerStepKeepsInvariant(s, step);
      } else {
        WorkerStepKeepsInvariant(s, step);
      }
      RunKeepsInvariant(Apply(s, step).value, steps[1..]);
    }
  }

  ghost predicate Reachable(s: State) {
    exists n: nat, steps: seq<Step> :: Run(Start(n), steps) == Some(s)
  }

  lemma {:induction false} ReachableIsGood(s: State)
    requires Reachable(s)
    ensures Inv(s)
  {
    var n: nat, steps: seq<Step> :| Run(Start(n), steps) == Some(s);
    StartIsGood(n);
    RunKeepsInvariant(Start(n), steps);
  }

  // ----- safety, in every reachable state -----

  /** The channel is closed once at most, and exactly when the worker has ended. */
  lemma {:induction false} ClosedExactlyWhenWorkerEnded(s: State)
    requires Reachable(s)
    ensures s.closes <= 1 && (s.closes == 1 <==> s.worker.Ended?)
  {
    ReachableIsGood(s);
  }

  /** One caller at most is the first; every other call returns only after the close. */
  lemma {:induction false} OthersReturnAfterTheClose(s: State, i: nat, j: nat)
    requires Reachable(s) && i < |s.callers| && j < |s.callers|
    ensures s.callers[i] == Returned(false) ==> s.worker.Ended? && s.closes == 1
    ensures s.callers[i].Returned? && s.callers[j].Returned? && s.callers[i].first && s.callers[j].first ==> i == j
  {
    ReachableIsGood(s);
    assert CallerFits(s, i) && CallerFits(s, j);
  }

  /** The worker has begun the task: its call is under way, has returned or was skipped. */
  predicate HasBegun(s: State, task: Task) {
    (exists x <- s.log :: x.task == task) ||
    (s.worker == Running(true) && |s.log| < |Program()| && Program()[|s.log|] == task)
  }

  /** The worker does not even begin to cancel the context before the launcher's
      turn is over and the state machine's shutdown has returned. */
  lemma {:induction false} CancelComesAfterShutdown(s: State)
    requires Reachable(s) && HasBegun(s, CancelContext)
    ensures |s.log| >= 3 && s.log[2] == Entry(StopMachine, true) && s.log[1].task == StopLauncher
  {
    ReachableIsGood(s);
    if x :| x in s.log && x.task == CancelContext {
      var k: nat :| k < |s.log| && s.log[k] == x;
      assert Passed(s.log, k);
    }
    assert Passed(s.log, 1) && Passed(s.log, 2);
  }

  /** The worker goes through its tasks in this order; only the launcher and the tray
      may be skipped, and they are called only when they have been assigned. */
  lemma {:induction false} TasksComeInOrder(s: State, k: nat)
    requires Reachable(s) && k < |s.log|
    ensures |s.log| <= 6
    ensures s.log[k].task == [NotifyMachine, StopLauncher, StopMachine, CancelContext, Sleep, QuitTray][k]
    ensures k != 1 && k != 5 ==> s.log[k].performed
    ensures s.log[k].performed ==> (k == 1 ==> s.launcher) && (k == 5 ==> s.trayApp)
  {
    ReachableIsGood(s);
    assert Passed(s.log, k);
  }

  lemma {:induction false} StepExtendsLog(s: State, step: Step)
    requires Apply(s, step).Some?
    ensures var t := Apply(s, step).value;
      (s.launcher ==> t.launcher) && (s.trayApp ==> t.trayApp) &&
      (t.log == s.log || (|s.log| < |Program()| && exists performed ::
        t.log == s.log + [Entry(Program()[|s.log|], performed)] &&
        (!performed ==> !Performs(s, Program()[|s.log|]))))
  {}

  lemma {:induction false} LogOnlyGrows(s: State, steps: seq<Step>)
    requires Run(s, steps).Some?
    ensures s.log <= Run(s, steps).value.log
    decreases |steps|
  {
    hide Apply;
    if steps != [] {
      StepExtendsLog(s, steps[0]);
      LogOnlyGrows(Apply(s, steps[0]).value, steps[1..]);
    }
  }

  /** A launcher assigned before the worker looks is shut down before the
      context is cancelled: whenever the worker is past it, its shutdown has
      returned. */
  lemma {:induction false} AssignedLauncherIsStopped(s: State, steps: seq<Step>)
    requires s.launcher && |s.log| <= 1 && Run(s, steps).Some? && |Run(s, steps).value.log| > 1
    ensures Run(s, steps).value.log[1] == Entry(StopLauncher, true)
    decreases |steps|
  {
    hide Apply;
    StepExtendsLog(s, steps[0]);
    var next := Apply(s, steps[0]).value;
    if |next.log| > 1 {
      LogOnlyGrows(next, steps[1..]);
    } else {
      AssignedLauncherIsStopped(next, steps[1..]);
    }
  }

  /** So is a tray assigned before the worker looks. */
  lemma {:induction false} AssignedTrayIsQuit(s: State, steps: seq<Step>)
    requires s.trayApp && |s.log| <= 5 && Run(s, steps).Some? && |Run(s, steps).value.log| > 5
    ensures Run(s, steps).value.log[5] == Entry(QuitTray, true)
    decreases |steps|
  {
    hide Apply;
    StepExtendsLog(s, steps[0]);
    var next := Apply(s, steps[0]).value;
    if |next.log| > 5 {
      LogOnlyGrows(next, steps[1..]);
    } else {
      AssignedTrayIsQuit(next, steps[1..]);
    }
  }

  // ----- progress -----

  predicate Settled(c: Caller) {
    c.Outside? || c.Returned?
  }

  /** Every call that was made has returned and no worker is under way. */
  predicate AtRest(s: State) {
    (forall c <- s.callers :: Settled(c)) && (s.worker.NotStarted? || s.worker.Ended?)
  }

  function NextOf(s: State, i: nat): Step
    requires i < |s.callers|
  {
    match s.callers[i]
    case AtOnce => Enter(i)
    case InOnce(spawned) => if spawned then LeaveOnce(i) else Spawn(i)
    case _ => Return(i)
  }

  predicate IsProgress(step: Step) {
    !step.Call? && !step.Panic? && !step.AssignLauncher? && !step.AssignTrayApp?
  }

  /** There is no deadlock: until the system is at rest, some step other than a
      new call, an assignment in `main` or a panic is enabled. */
  lemma {:induction false} NoDeadlock(s: State)
    requires Reachable(s) && !AtRest(s)
    ensures exists step: Step :: Apply(s, step).Some? && IsProgress(step)
  {
    ReachableIsGood(s);
    if s.worker.Running? {
      assert Apply(s, if s.worker.inTask then Complete else if |s.log| < |Program()| then Begin else Finish).Some?;
    } else if s.worker.Deferred? {
      assert Apply(s, Close).Some?;
    } else {
      var i: nat :| i < |s.callers| && !Settled(s.callers[i]);
      assert CallerFits(s, i);
      if s.once.Busy? {
        var owner := s.once.owner;
        assert CallerFits(s, owner);
        assert Apply(s, NextOf(s, owner)).Some?;
      } else {
        assert Apply(s, NextOf(s, i)).Some?;
      }
    }
  }

  function CallerSteps(c: Caller): nat {
    match c
    case Outside => 5
    case AtOnce => 4
    case InOnce(spawned) => if spawned then 2 else 3
    case AfterOnce(_) => 1
    case Returned(_) => 0
  }

  function Total(callers: seq<Caller>): nat {
    if callers == [] then 0 else CallerSteps(callers[0]) + Total(callers[1..])
  }

  function WorkerSteps(s: State): nat {
    match s.worker
    case NotStarted => 15
    case Running(inTask) => if |s.log| <= 6 then 14 - 2 * |s.log| - (if inTask then 1 else 0) else 2
    case Deferred(_) => 1
    case Ended(_) => 0
  }

  function StepsLeft(s: State): nat {
    Total(s.callers) + WorkerSteps(s) + (if s.launcher then 0 else 1) + (if s.trayApp then 0 else 1)
  }

  lemma {:induction false} TotalMoves(callers: seq<Caller>, i: nat, c: Caller)
    requires i < |callers|
    ensures Total(callers[i := c]) + CallerSteps(callers[i]) == Total(callers) + CallerSteps(c)
  {
    if i == 0 {
      assert callers[i := c][1..] == callers[1..];
    } else {
      TotalMoves(callers[1..], i - 1, c);
      assert callers[i := c][1..] == callers[1..][i - 1 := c];
    }
  }

  lemma {:induction false} StepUsesOne(s: State, step: Step)
    requires Inv(s) && Apply(s, step).Some?
    ensures StepsLeft(Apply(s, step).value) < StepsLeft(s)
  {
    if step.Call? || step.Enter? || step.Spawn? || step.LeaveOnce? || step.Return? {
      CallerStepUsesOne(s, step);
    }
  }

  lemma {:induction false} CallerStepUsesOne(s: State, step: Step)
    requires Inv(s) && Apply(s, step).Some?
    requires step.Call? || step.Enter? || step.Spawn? || step.LeaveOnce? || step.Return?
    ensures StepsLeft(Apply(s, step).value) < StepsLeft(s)
  {
    hide Total;
    var t := Apply(s, step).value;
    assert CallerFits(s, step.i);
    TotalMoves(s.callers, step.i, t.callers[step.i]);
  }

  lemma {:induction false} StartTotal(n: nat)
    ensures Total(Start(n).callers) == 5 * n
  {
    if n > 0 {
      StartTotal(n - 1);
      assert Start(n).callers[1..] == Start(n - 1).callers;
    }
  }

  lemma {:induction false} RunUsesSteps(s: State, steps: seq<Step>)
    requires Inv(s) && Run(s, steps).Some?
    ensures |steps| + StepsLeft(Run(s, steps).value) <= StepsLeft(s)
    decreases |steps|
  {
    hide Inv, Apply, StepsLeft;
    if steps != [] {
      StepUsesOne(s, steps[0]);
      assert Run(s, [steps[0]]) == Run(Apply(s, steps[0]).value, []);
      RunKeepsInvariant(s, [steps[0]]);
      RunUsesSteps(Apply(s, steps[0]).value, steps[1..]);
    }
  }

  /** No run with n callers is longer than 5n + 17 steps; with NoDeadlock, every
      run that keeps stepping comes to rest. */
  lemma {:induction false} RunsAreFinite(n: nat, steps: seq<Step>)
    requires Run(Start(n), steps).Some?
    ensures |steps| <= 5 * n + 17
  {
    StartIsGood(n);
    StartTotal(n);
    RunUsesSteps(Start(n), steps);
  }

  predicate Cancelled(s: State) {
    Entry(CancelContext, true) in s.log
  }

  /** At rest after at least one call, the channel is closed; the context has
      been cancelled unless the worker panicked before it got that far. */
  lemma {:induction false} AtRestAfterACall(s: State, i: nat)
    requires Reachable(s) && AtRest(s) && i < |s.callers| && s.callers[i].Returned?
    ensures s.worker.Ended? && s.closes == 1
    ensures Cancelled(s) <==> |s.log| >= 4
    ensures !s.worker.panicked ==> |s.log| == 6 && Cancelled(s)
  {
    ReachableIsGood(s);
    assert CallerFits(s, i);
    if |s.log| >= 4 {
      assert Passed(s.log, 3) && s.log[3] == Entry(CancelContext, true);
    }
    if Cancelled(s) {
      var k: nat :| k < |s.log| && s.log[k] == Entry(CancelContext, true);
      assert Passed(s.log, k);
    }
  }

  lemma {:induction false} OneStep(s: State, step: Step, t: State, rest: seq<Step>)
    requires Apply(s, step) == Some(t)
    ensures Run(s, [step] + rest) == Run(t, rest)
  {
    assert ([step] + rest)[1..] == rest;
  }

  lemma {:induction false} NoStep(s: State)
    ensures Run(s, []) == Some(s)
  {}

  lemma {:induction false} FirstReturns()
    ensures Run(Start(2), [Call(0), Enter(0), Spawn(0), LeaveOnce(0), Return(0)])
         == Some(State([Returned(true), Outside], Done(0), Running(false), [], 0, false, false))
  {
    assert Start(2).callers == [Outside, Outside];
    var s0 := State([Outside, Outside], Fresh, NotStarted, [], 0, false, false);
    var s1 := Move(s0, 0, AtOnce);
    var s2 := Move(s1, 0, InOnce(false)).(once := Busy(0));
    var s3 := Move(s2, 0, InOnce(true)).(worker := Running(false));
    var s4 := Move(s3, 0, AfterOnce(true)).(once := Done(0));
    var s5 := Move(s4, 0, Returned(true));
    assert s5.callers == [Returned(true), Outside];
    NoStep(s5);
    hide Run;
    OneStep(s4, Return(0), s5, []);
    OneStep(s3, LeaveOnce(0), s4, [Return(0)]);
    OneStep(s2, Spawn(0), s3, [LeaveOnce(0), Return(0)]);
    OneStep(s1, Enter(0), s2, [Spawn(0), LeaveOnce(0), Return(0)]);
    OneStep(s0, Call(0), s1, [Enter(0), Spawn(0), LeaveOnce(0), Return(0)]);
  }

  lemma {:induction false} SecondReturns()
    ensures Run(State([Returned(true), Outside], Done(0), Running(false), [], 0, false, false),
                [Call(1), Enter(1), Panic, Close, Return(1)])
         == Some(State([Returned(true), Returned(false)], Done(0), Ended(true), [], 1, false, false))
  {
    var s0 := State([Returned(true), Outside], Done(0), Running(false), [], 0, false, false);
    var s1 := Move(s0, 1, AtOnce);
    var s2 := Move(s1, 1, AfterOnce(false));
    var s3 := s2.(worker := Deferred(true));
    var s4 := s3.(worker := Ended(true), closes := 1);
    var s5 := Move(s4, 1, Returned(false));
    assert s5.callers == [Returned(true), Returned(false)];
    NoStep(s5);
    hide Run;
    OneStep(s4, Return(1), s5, []);
    OneStep(s3, Close, s4, [Return(1)]);
    OneStep(s2, Panic, s3, [Close, Return(1)]);
    OneStep(s1, Enter(1), s2, [Panic, Close, Return(1)]);
    OneStep(s0, Call(1), s1, [Enter(1), Panic, Close, Return(1)]);
  }

  /** A panic ahead of `cancel` releases the waiting callers although nothing
      has cancelled the context, and the first caller returns even
      before the worker has done anything. */
  lemma {:induction false} ReturnsProveLittle()
    ensures exists early: State :: Reachable(early) && early.callers == [Returned(true), Outside] && early.log == []
    ensures exists late: State ::
      Reachable(late) && late.callers == [Returned(true), Returned(false)] && !Cancelled(late)
  {
    var first := [Call(0), Enter(0), Spawn(0), LeaveOnce(0), Return(0)];
    var early := State([Returned(true), Outside], Done(0), Running(false), [], 0, false, false);
    FirstReturns();
    assert Reachable(early);
    var second := [Call(1), Enter(1), Panic, Close, Return(1)];
    var late := State([Returned(true), Returned(false)], Done(0), Ended(true), [], 1, false, false);
    SecondReturns();
    RunsJoin(Start(2), first, second);
    assert Reachable(late);
  }

  lemma {:induction false} RunsJoin(s: State, first: seq<Step>, second: seq<Step>)
    requires Run(s, first).Some?
    ensures Run(s, first + second) == Run(Run(s, first).value, second)
    decreases |first|
  {
    if first == [] {
      assert first + second == second;
    } else {
      RunsJoin(Apply(s, first[0]).value, first[1..], second);
      assert (first + second)[1..] == first[1..] + second;
    }
  }
}
