/** The life of the background task that starts the Pyre server and subscribes to it:
    `TaskManager` (client/background_tasks.py), the phases of `launch_and_subscribe`
    (client/commands/launch_and_subscribe_handler.py) and the dispatcher that restarts it
    (client/commands/pyre_language_server.py).

    Coroutines are cooperative, so the code between two `await`s is one atomic step. A step is
    enabled in a state and has one outcome; a run is any sequence of enabled steps. */
module DaemonProtocol {
  import opened Outcomes

  const CONSECUTIVE_START_ATTEMPT_THRESHOLD: nat := 5

  /** How far a running task has come. `Finishing` stands for everything after which the task
      neither connects nor counts a failure again: error handling, clean-up, status messages. */
  datatype Phase = Probing | Starting | Joining | Connected(isPreexisting: bool) | Finishing

  /** A task that was created but has not run yet only remembers whether it was cancelled. */
  datatype TaskState = Scheduled(cancelled: bool) | Alive(phase: Phase) | Done

  /** Coroutines that wait for the lock, to run one of the two locked sections. */
  datatype Request = EnsureRunning | EnsureStop

  /** `holder` is the task that the current owner of the lock awaits: only `ensure_task_stop`
      keeps the lock across an `await`. Waiters are served in the order of arrival. */
  datatype State = State(
    tasks: seq<TaskState>,
    ongoing: Option<nat>,
    holder: Option<nat>,
    waiters: seq<Request>,
    booted: bool,
    consecutiveStartFailure: nat)

  const INITIAL := State([], None, None, [], false, 0)

  datatype Step =
    | Boot                        // `run` launches the task, without looking at the counter
    | Dispatch                    // `_restart_if_needed` without an error source
    | CallEnsureRunning           // any other caller of `ensure_task_running`
    | CallEnsureStop              // any caller of `ensure_task_stop`
    | Grant                       // the first waiter gets the lock
    | Abandon(waiter: nat)        // a waiter is itself cancelled
    | Resume                      // the awaited task is done, `ensure_task_stop` goes on
    | Begin(task: nat)            // first step of a task
    | CancelUnstarted(task: nat)  // a task cancelled before its first step
    | Finish(task: nat)           // a task ends, normally, by exception or by cancellation
    | ConnectionLost(task: nat)   // no server, or `OSError`: the probe or the first subscription fails
    | StartSuccess(task: nat)
    | BuckStartFailure(task: nat)
    | OtherStartFailure(task: nat)
    | Connect(task: nat)
    | Interrupt(task: nat)        // cancellation or an exception that is not handled above

  predicate Is(s: State, t: nat, phase: Phase) {
    t < |s.tasks| && s.tasks[t] == Alive(phase)
  }

  predicate Enabled(s: State, step: Step) {
    match step
    case Boot => !s.booted
    case Dispatch => s.booted
    case CallEnsureRunning => true
    case CallEnsureStop => true
    case Grant => s.holder.None? && s.waiters != []
    case Abandon(i) => i < |s.waiters|
    case Resume => s.holder.Some? && s.holder.value < |s.tasks| && s.tasks[s.holder.value].Done?
    case Begin(t) => t < |s.tasks| && s.tasks[t] == Scheduled(false)
    case CancelUnstarted(t) => t < |s.tasks| && s.tasks[t] == Scheduled(true)
    case Finish(t) => t < |s.tasks| && s.tasks[t].Alive?
    case ConnectionLost(t) => Is(s, t, Probing) || Is(s, t, Connected(true))
    case StartSuccess(t) => Is(s, t, Starting)
    case BuckStartFailure(t) => Is(s, t, Starting)
    case OtherStartFailure(t) => Is(s, t, Starting)
    case Connect(t) => Is(s, t, Probing) || Is(s, t, Joining)
    case Interrupt(t) => t < |s.tasks| && s.tasks[t].Alive?
  }

  function MoveTo(s: State, t: nat, phase: Phase): State
    requires t < |s.tasks|
  {
    s.(tasks := s.tasks[t := Alive(phase)])
  }

  /** The locked sections. `cancel` before the first step is remembered in the task. */
  function Locked(s: State, request: Request): State {
    match request
    case EnsureRunning =>
      if s.ongoing.None? then
        s.(tasks := s.tasks + [Scheduled(false)], ongoing := Some(|s.tasks|))
      else
        s
    case EnsureStop =>
      if s.ongoing.None? then
        s
      else
        var t := s.ongoing.value;
        s.(holder := s.ongoing,
           tasks := if t < |s.tasks| && s.tasks[t].Scheduled? then s.tasks[t := Scheduled(true)] else s.tasks)
  }

  /** `async with self._lock`: no wait when the lock is free and nobody is in line. */
  function Acquire(s: State, request: Request): State {
    if s.holder.None? && s.waiters == [] then Locked(s, request)
    else s.(waiters := s.waiters + [request])
  }

  function Apply(s: State, step: Step): State
    requires Enabled(s, step)
  {
    match step
    case Boot => Acquire(s.(booted := true), EnsureRunning)
    case Dispatch =>
      if s.consecutiveStartFailure >= CONSECUTIVE_START_ATTEMPT_THRESHOLD then s
      else if s.ongoing.Some? then s
      else Acquire(s, EnsureRunning)
    case CallEnsureRunning => Acquire(s, EnsureRunning)
    case CallEnsureStop => Acquire(s, EnsureStop)
    case Grant => Locked(s.(waiters := s.waiters[1..]), s.waiters[0])
    case Abandon(i) => s.(waiters := s.waiters[..i] + s.waiters[i + 1..])
    case Resume => s.(ongoing := None, holder := None)
    case Begin(t) => MoveTo(s, t, Probing)
    case CancelUnstarted(t) => s.(tasks := s.tasks[t := Done])
    case Finish(t) => s.(tasks := s.tasks[t := Done], ongoing := None)
    case ConnectionLost(t) => MoveTo(s, t, Starting)
    case StartSuccess(t) => MoveTo(s, t, Joining)
    case BuckStartFailure(t) => MoveTo(s, t, Finishing)
    case OtherStartFailure(t) =>
      MoveTo(s, t, Finishing).(consecutiveStartFailure := s.consecutiveStartFailure + 1)
    case Connect(t) =>
      MoveTo(s, t, Connected(s.tasks[t].phase == Probing)).(consecutiveStartFailure := 0)
    case Interrupt(t) => MoveTo(s, t, Finishing)
  }

  /** `states[i]` is the state before `steps[i]`. */
  datatype Run = Run(states: seq<State>, steps: seq<Step>)

  ghost predicate IsRun(r: Run) {
    && |r.states| == |r.steps| + 1
    && r.states[0] == INITIAL
    && forall i :: 0 <= i < |r.steps| ==>
         Enabled(r.states[i], r.steps[i]) && r.states[i + 1] == Apply(r.states[i], r.steps[i])
  }

  // ----- A single background task, in every interleaving of any callers

  ghost predicate AllEnded(s: State) {
    forall t :: 0 <= t < |s.tasks| ==> s.tasks[t].Done?
  }

  /** Every task but the one in `_ongoing` has ended. While the lock is free, `_ongoing` holds no
      ended task and no task is cancelled before its first step. */
  ghost predicate SingleTask(s: State) {
    && (s.ongoing.None? ==> AllEnded(s))
    && (s.ongoing.Some? ==> s.ongoing.value < |s.tasks|
                            && forall t :: 0 <= t < |s.tasks| && t != s.ongoing.value ==> s.tasks[t].Done?)
    && (s.holder.None? && s.ongoing.Some? ==> !s.tasks[s.ongoing.value].Done?)
    && (forall t :: 0 <= t < |s.tasks| && s.tasks[t] == Scheduled(true) ==> s.holder == Some(t))
    && (s.holder.Some? ==> s.holder.value < |s.tasks| && (s.ongoing.None? || s.ongoing == s.holder))
  }

  lemma StepKeepsSingleTask(s: State, step: Step)
    requires SingleTask(s) && Enabled(s, step)
    ensures SingleTask(Apply(s, step))
  {
  }

  /** `ensure_task_stop` gets the lock in this step. */
  predicate StopEnters(s: State, step: Step)
    requires Enabled(s, step)
  {
    (step.CallEnsureStop? && s.holder.None? && s.waiters == []) || (step.Grant? && s.waiters[0] == EnsureStop)
  }

  /** Safety of `TaskManager` over every run: at most one task is alive, `_ongoing` is `None` only
      when none is, a task that finishes clears no entry but its own, and when `ensure_task_stop`
      releases the lock no task is alive, even if it was cancelled before its first step. */
  lemma {:induction false} SingleBackgroundTask(r: Run, i: nat)
    requires IsRun(r) && i < |r.states|
    ensures SingleTask(r.states[i])
    ensures forall t, u :: 0 <= t < u < |r.states[i].tasks| ==> r.states[i].tasks[t].Done? || r.states[i].tasks[u].Done?
    ensures i < |r.steps| && r.steps[i].Finish? ==> r.states[i].ongoing == Some(r.steps[i].task)
    ensures i < |r.steps| && r.steps[i].Resume? ==> AllEnded(r.states[i]) && AllEnded(r.states[i + 1])
    ensures i < |r.steps| && StopEnters(r.states[i], r.steps[i]) ==>
              r.states[i + 1].holder.Some? || AllEnded(r.states[i + 1])
  {
    if i == 0 {
    } else {
      SingleBackgroundTask(r, i - 1);
      StepKeepsSingleTask(r.states[i - 1], r.steps[i - 1]);
    }
    var s := r.states[i];
    if i < |r.steps| {
      match r.steps[i] {
        case Finish(t) => assert !s.tasks[t].Done?;
        case Resume =>
          forall t | 0 <= t < |s.tasks| ensures s.tasks[t].Done? {
            assert t != s.holder.value ==> s.ongoing.None? || t != s.ongoing.value;
          }
        case _ =>
      }
    }
  }

  // ----- The course of one task

  predicate IsStepOf(step: Step, t: nat) {
    && (step.Begin? || step.CancelUnstarted? || step.Finish? || step.ConnectionLost? || step.StartSuccess?
        || step.BuckStartFailure? || step.OtherStartFailure? || step.Connect? || step.Interrupt?)
    && step.task == t
  }

  /** The steps of one task, in order. */
  function OwnSteps(steps: seq<Step>, t: nat): seq<Step> {
    if steps == [] then []
    else
      var n := |steps| - 1;
      OwnSteps(steps[..n], t) + if IsStepOf(steps[n], t) then [steps[n]] else []
  }

  predicate IsEnd(step: Step) {
    step.Finish? || step.Interrupt?
  }

  /** What may come next, told by what the task did last. It looks for a running server, and starts
      one if there is none or the connection to it is lost; it connects to the server that it
      started, and does not come back once that connection is lost or the start has failed. */
  predicate MayFollow(own: seq<Step>, next: Step) {
    if own == [] then next.Begin? || next.CancelUnstarted?
    else
      match own[|own| - 1]
      case Begin(_) => next.Connect? || next.ConnectionLost? || IsEnd(next)
      case ConnectionLost(_) =>
        next.StartSuccess? || next.BuckStartFailure? || next.OtherStartFailure? || IsEnd(next)
      case StartSuccess(_) => next.Connect? || IsEnd(next)
      case Connect(_) => (next.ConnectionLost? && |own| > 1 && own[|own| - 2].Begin?) || IsEnd(next)
      case Finish(_) => false
      case CancelUnstarted(_) => false
      case _ => IsEnd(next)
  }

  /** The state of a task in terms of its own steps. */
  predicate IsCourse(own: seq<Step>, state: TaskState) {
    if own == [] then state.Scheduled?
    else
      match own[|own| - 1]
      case Begin(_) => state == Alive(Probing)
      case ConnectionLost(_) => state == Alive(Starting)
      case StartSuccess(_) => state == Alive(Joining)
      case Connect(_) => state == Alive(Connected(|own| > 1 && own[|own| - 2].Begin?))
      case Finish(_) => state.Done?
      case CancelUnstarted(_) => state.Done?
      case _ => state == Alive(Finishing)
  }

  lemma CourseStep(s: State, step: Step, t: nat, own: seq<Step>)
    requires Enabled(s, step)
    requires if t < |s.tasks| then IsCourse(own, s.tasks[t]) else own == []
    ensures var own' := own + if IsStepOf(step, t) then [step] else [];
            if t < |Apply(s, step).tasks| then IsCourse(own', Apply(s, step).tasks[t]) else own' == []
  {
  }

  lemma {:induction false} CourseOfTask(r: Run, i: nat, t: nat)
    requires IsRun(r) && i < |r.states|
    ensures var own := OwnSteps(r.steps[..i], t);
            if t < |r.states[i].tasks| then IsCourse(own, r.states[i].tasks[t]) else own == []
  {
    if i == 0 {
    } else {
      CourseOfTask(r, i - 1, t);
      CourseStep(r.states[i - 1], r.steps[i - 1], t, OwnSteps(r.steps[..i - 1], t));
      assert r.steps[..i][..i - 1] == r.steps[..i - 1];
    }
  }

  /** In every run, whatever the other tasks and callers do, the steps that a task can take are told
      by its own steps so far. Before the first, it can begin unless it was cancelled. */
  lemma NextStepOfTask(r: Run, i: nat, t: nat, step: Step)
    requires IsRun(r) && i < |r.states| && t < |r.states[i].tasks| && IsStepOf(step, t)
    ensures Enabled(r.states[i], step) ==> MayFollow(OwnSteps(r.steps[..i], t), step)
    ensures OwnSteps(r.steps[..i], t) != [] ==>
              (Enabled(r.states[i], step) <==> MayFollow(OwnSteps(r.steps[..i], t), step))
    ensures OwnSteps(r.steps[..i], t) == [] ==>
              (Enabled(r.states[i], Begin(t)) <==> !Enabled(r.states[i], CancelUnstarted(t)))
  {
    CourseOfTask(r, i, t);
    NextStep(r.states[i], t, OwnSteps(r.steps[..i], t), step);
  }

  lemma NextStep(s: State, t: nat, own: seq<Step>, step: Step)
    requires t < |s.tasks| && IsCourse(own, s.tasks[t]) && IsStepOf(step, t)
    ensures Enabled(s, step) ==> MayFollow(own, step)
    ensures own != [] && MayFollow(own, step) ==> Enabled(s, step)
    ensures own == [] ==> (Enabled(s, Begin(t)) <==> !Enabled(s, CancelUnstarted(t)))
  {
  }

  /** Start-up happens once, and requests come after it. */
  lemma {:induction false} BootsOnce(r: Run, i: nat)
    requires IsRun(r) && i < |r.states|
    ensures Enabled(r.states[i], Boot) <==> Boot !in r.steps[..i]
    ensures Enabled(r.states[i], Dispatch) <==> Boot in r.steps[..i]
  {
    if i == 0 {
    } else {
      BootsOnce(r, i - 1);
      assert r.steps[..i] == r.steps[..i - 1] + [r.steps[i - 1]];
    }
  }

  // ----- The cap on restarts, up to the final stop

  /** The callers that the language server really has before its final stop. */
  ghost predicate BeforeFinalStop(steps: seq<Step>) {
    forall i :: 0 <= i < |steps| ==> !steps[i].CallEnsureRunning? && !steps[i].CallEnsureStop?
  }

  /** Start failures not caused by Buck since the last connection, read off the history alone. */
  function FailuresSinceConnection(steps: seq<Step>): nat {
    if steps == [] then 0
    else
      var before := FailuresSinceConnection(steps[..|steps| - 1]);
      match steps[|steps| - 1]
      case Connect(_) => 0
      case OtherStartFailure(_) => before + 1
      case _ => before
  }

  predicate MayStillFail(t: TaskState) {
    !t.Done? && t != Alive(Finishing)
  }

  /** The lock is never held across an `await`, and a task that may still count a failure was
      launched below the threshold. */
  ghost predicate Capped(s: State) {
    && SingleTask(s)
    && s.holder.None? && s.waiters == []
    && (!s.booted ==> s.tasks == [] && s.consecutiveStartFailure == 0)
    && s.consecutiveStartFailure <= CONSECUTIVE_START_ATTEMPT_THRESHOLD
    && (forall t :: 0 <= t < |s.tasks| && MayStillFail(s.tasks[t]) ==>
          s.consecutiveStartFailure < CONSECUTIVE_START_ATTEMPT_THRESHOLD)
  }

  lemma StepKeepsCapped(s: State, step: Step)
    requires Capped(s) && Enabled(s, step)
    requires !step.CallEnsureRunning? && !step.CallEnsureStop?
    ensures Capped(Apply(s, step))
    ensures s.consecutiveStartFailure == CONSECUTIVE_START_ATTEMPT_THRESHOLD ==>
              |Apply(s, step).tasks| == |s.tasks|
              && Apply(s, step).consecutiveStartFailure == s.consecutiveStartFailure
  {
  }

  /** The counter is the number of failures since the last connection and never exceeds five. */
  lemma {:induction false} RestartCap(r: Run, i: nat)
    requires IsRun(r) && BeforeFinalStop(r.steps) && i < |r.states|
    ensures Capped(r.states[i])
    ensures r.states[i].consecutiveStartFailure == FailuresSinceConnection(r.steps[..i])
    ensures r.states[i].consecutiveStartFailure <= CONSECUTIVE_START_ATTEMPT_THRESHOLD
  {
    if i == 0 {
    } else {
      RestartCap(r, i - 1);
      StepKeepsCapped(r.states[i - 1], r.steps[i - 1]);
      CounterFollowsHistory(r.states[i - 1], r.steps[i - 1], r.steps[..i - 1]);
      assert r.steps[..i] == r.steps[..i - 1] + [r.steps[i - 1]];
    }
  }

  lemma CounterFollowsHistory(s: State, step: Step, past: seq<Step>)
    requires Enabled(s, step) && s.consecutiveStartFailure == FailuresSinceConnection(past)
    ensures Apply(s, step).consecutiveStartFailure == FailuresSinceConnection(past + [step])
  {
    assert (past + [step])[..|past|] == past;
  }

  /** Once the counter is five it stays five and no task is ever launched again. */
  lemma {:induction false} NoLaunchAfterCap(r: Run, i: nat, j: nat)
    requires IsRun(r) && BeforeFinalStop(r.steps) && i <= j < |r.states|
    requires r.states[i].consecutiveStartFailure == CONSECUTIVE_START_ATTEMPT_THRESHOLD
    ensures r.states[j].consecutiveStartFailure == CONSECUTIVE_START_ATTEMPT_THRESHOLD
    ensures |r.states[j].tasks| == |r.states[i].tasks|
  {
    if i == j {
    } else {
      NoLaunchAfterCap(r, i, j - 1);
      RestartCap(r, j - 1);
      StepKeepsCapped(r.states[j - 1], r.steps[j - 1]);
    }
  }

  /** A task is launched exactly when the start-up code or a request finds none alive and the
      counter below five; so after a request either a task is alive or the cap was reached. */
  lemma LaunchCondition(r: Run, i: nat)
    requires IsRun(r) && BeforeFinalStop(r.steps) && i < |r.steps|
    ensures |r.states[i + 1].tasks| > |r.states[i].tasks| <==>
              (r.steps[i].Boot? || r.steps[i].Dispatch?)
              && AllEnded(r.states[i])
              && r.states[i].consecutiveStartFailure < CONSECUTIVE_START_ATTEMPT_THRESHOLD
    ensures r.steps[i].Dispatch? ==>
              !AllEnded(r.states[i + 1])
              || r.states[i + 1].consecutiveStartFailure == CONSECUTIVE_START_ATTEMPT_THRESHOLD
  {
    RestartCap(r, i);
    RestartCap(r, i + 1);
    var s, s' := r.states[i], r.states[i + 1];
    assert s.ongoing.None? <==> AllEnded(s);
    assert s'.ongoing.None? <==> AllEnded(s');
  }
}
