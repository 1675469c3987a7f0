/** The code between the `await`s on shared fields: `TaskManager` (client/background_tasks.py), the
    failure counter (client/commands/launch_and_subscribe_handler.py) and the dispatcher
    (client/commands/pyre_language_server.py). Each method is one step of `DaemonProtocol`, and
    `Execute` carries out any schedule of steps. */
module LanguageServer {
  import opened Outcomes
  import opened DaemonProtocol

  class Server {
    var tasks: seq<TaskState>
    var ongoing: Option<nat>
    var holder: Option<nat>
    var waiters: seq<Request>
    var booted: bool
    var consecutiveStartFailure: nat

    constructor ()
      ensures View() == INITIAL && SingleTask(View())
    {
      tasks, ongoing, holder, waiters, booted, consecutiveStartFailure := [], None, None, [], false, 0;
    }

    function View(): State
      reads this
    {
      State(tasks, ongoing, holder, waiters, booted, consecutiveStartFailure)
    }

    predicate LockIsFree()
      reads this
    {
      holder.None? && waiters == []
    }

    /** When the lock is free a task is alive afterwards, a new one only if none was. */
    method EnsureTaskRunning()
      requires SingleTask(View())
      modifies this
      ensures View() == Apply(old(View()), CallEnsureRunning) && SingleTask(View())
      ensures old(LockIsFree()) ==> !AllEnded(View())
      ensures |tasks| == |old(tasks)| + if old(LockIsFree() && AllEnded(View())) then 1 else 0
      ensures waiters == old(waiters) + if old(LockIsFree()) then [] else [EnsureRunning]
    {
      if !LockIsFree() {
        waiters := waiters + [EnsureRunning];
      } else if ongoing.None? {
        tasks, ongoing := tasks + [Scheduled(false)], Some(|tasks|);
      }
      StepKeepsSingleTask(old(View()), CallEnsureRunning);
    }

    /** When the lock is free, either no task is alive or the lock is now held until the only one
        alive has ended; that task is marked if it has not begun. */
    method EnsureTaskStop()
      requires SingleTask(View())
      modifies this
      ensures View() == Apply(old(View()), CallEnsureStop) && SingleTask(View())
      ensures old(LockIsFree()) ==> (holder.None? <==> old(AllEnded(View())))
      ensures old(LockIsFree()) && holder.Some? ==>
                !tasks[holder.value].Done? && tasks[holder.value] != Scheduled(false)
      ensures waiters == old(waiters) + if old(LockIsFree()) then [] else [EnsureStop]
    {
      if !LockIsFree() {
        waiters := waiters + [EnsureStop];
      } else if ongoing.Some? {
        var t := ongoing.value;
        if tasks[t].Scheduled? {
          tasks := tasks[t := Scheduled(true)];
        }
        holder := ongoing;
      }
      StepKeepsSingleTask(old(View()), CallEnsureStop);
    }

    /** The next coroutine in line gets the lock. */
    method ServeWaiter()
      requires SingleTask(View()) && Enabled(View(), Grant)
      modifies this
      ensures View() == Apply(old(View()), Grant) && SingleTask(View())
      ensures old(waiters)[0] == EnsureRunning ==> !AllEnded(View())
      ensures old(waiters)[0] == EnsureStop ==> AllEnded(View()) || holder.Some?
      ensures holder.Some? ==> holder.value < |tasks| && tasks[holder.value] != Scheduled(false)
      ensures waiters == old(waiters)[1..]
    {
      var request := waiters[0];
      waiters := waiters[1..];
      if request == EnsureRunning && ongoing.None? {
        tasks, ongoing := tasks + [Scheduled(false)], Some(|tasks|);
      } else if request == EnsureStop && ongoing.Some? {
        var t := ongoing.value;
        if tasks[t].Scheduled? {
          tasks := tasks[t := Scheduled(true)];
        }
        holder := ongoing;
      }
      StepKeepsSingleTask(old(View()), Grant);
    }

    /** The `finally` block of `ensure_task_stop`: no task is alive when the lock is released. */
    method FinishStop()
      requires SingleTask(View()) && Enabled(View(), Step.Resume)
      modifies this
      ensures View() == Apply(old(View()), Step.Resume) && SingleTask(View())
      ensures AllEnded(View()) && holder.None?
    {
      ongoing := None;
      holder := None;
      StepKeepsSingleTask(old(View()), Step.Resume);
    }

    /** The `finally` block of `_run_task`. It does not look whose entry it clears, but it is
        always its own, and no task is alive afterwards. */
    method FinishTask(t: nat)
      requires SingleTask(View()) && Enabled(View(), Finish(t))
      modifies this
      ensures View() == Apply(old(View()), Finish(t)) && SingleTask(View())
      ensures old(ongoing) == Some(t) && AllEnded(View())
    {
      tasks := tasks[t := Done];
      ongoing := None;
      StepKeepsSingleTask(old(View()), Finish(t));
    }

    /** Start-up: with the lock free a task is alive afterwards. */
    method Start()
      requires SingleTask(View()) && Enabled(View(), Boot)
      modifies this
      ensures View() == Apply(old(View()), Boot) && SingleTask(View())
      ensures booted
      ensures old(LockIsFree()) ==> !AllEnded(View())
    {
      booted := true;
      EnsureTaskRunning();
    }

    /** `_restart_if_needed` without an error source. With the lock free it launches a task exactly
        when all have ended and the counter is below five. */
    method RestartIfNeeded()
      requires SingleTask(View()) && Enabled(View(), Dispatch)
      modifies this
      ensures View() == Apply(old(View()), Dispatch) && SingleTask(View())
      ensures old(LockIsFree()) ==>
                (|tasks| > |old(tasks)| <==>
                 old(AllEnded(View())) && consecutiveStartFailure < CONSECUTIVE_START_ATTEMPT_THRESHOLD)
      ensures old(LockIsFree()) ==>
                !AllEnded(View()) || consecutiveStartFailure >= CONSECUTIVE_START_ATTEMPT_THRESHOLD
      ensures consecutiveStartFailure >= CONSECUTIVE_START_ATTEMPT_THRESHOLD || ongoing.Some? || !old(LockIsFree())
      ensures waiters != old(waiters) ==>
                waiters == old(waiters) + [EnsureRunning] && old(ongoing).None? && !old(LockIsFree())
    {
      if consecutiveStartFailure >= CONSECUTIVE_START_ATTEMPT_THRESHOLD {
        return;
      }
      if ongoing.None? {
        EnsureTaskRunning();
      }
    }

    /** A connection clears the counter; its task is the only one alive. */
    method MarkConnected(t: nat)
      requires SingleTask(View()) && Enabled(View(), Connect(t))
      modifies this
      ensures View() == Apply(old(View()), Connect(t)) && SingleTask(View())
      ensures consecutiveStartFailure == 0
      ensures forall u :: 0 <= u < |tasks| ==> (tasks[u].Done? <==> u != t)
    {
      tasks := tasks[t := Alive(Connected(tasks[t].phase == Probing))];
      consecutiveStartFailure := 0;
      StepKeepsSingleTask(old(View()), Connect(t));
    }

    /** A start failure is counted once: no task that is alive can count another one. */
    method CountStartFailure(t: nat)
      requires SingleTask(View()) && Enabled(View(), OtherStartFailure(t))
      modifies this
      ensures View() == Apply(old(View()), OtherStartFailure(t)) && SingleTask(View())
      ensures consecutiveStartFailure == old(consecutiveStartFailure) + 1
      ensures forall u :: 0 <= u < |tasks| ==> !MayStillFail(tasks[u])
    {
      tasks := tasks[t := Alive(Finishing)];
      consecutiveStartFailure := consecutiveStartFailure + 1;
      StepKeepsSingleTask(old(View()), OtherStartFailure(t));
    }

    /** The remaining steps: a waiter gives up, a cancelled task ends before it began, or a task
        goes on to its next phase. None of them launches a task or touches the counter. */
    method Proceed(step: Step)
      requires SingleTask(View()) && Enabled(View(), step)
      requires step.Abandon? || step.CancelUnstarted? || step.Begin? || step.ConnectionLost?
               || step.StartSuccess? || step.BuckStartFailure? || step.Interrupt?
      modifies this
      ensures View() == Apply(old(View()), step) && SingleTask(View())
      ensures |tasks| == |old(tasks)| && consecutiveStartFailure == old(consecutiveStartFailure)
      ensures ongoing == old(ongoing) && holder == old(holder) && booted == old(booted)
      ensures waiters == if step.Abandon? then old(waiters)[..step.waiter] + old(waiters)[step.waiter + 1..]
                         else old(waiters)
      ensures step.Abandon? ==> tasks == old(tasks)
    {
      match step {
        case Abandon(i) => waiters := waiters[..i] + waiters[i + 1..];
        case CancelUnstarted(t) => tasks := tasks[t := Done];
        case Begin(t) => tasks := tasks[t := Alive(Probing)];
        case ConnectionLost(t) => tasks := tasks[t := Alive(Starting)];
        case StartSuccess(t) => tasks := tasks[t := Alive(Joining)];
        case BuckStartFailure(t) => tasks := tasks[t := Alive(Finishing)];
        case Interrupt(t) => tasks := tasks[t := Alive(Finishing)];
      }
      StepKeepsSingleTask(old(View()), step);
    }

    method Perform(step: Step)
      requires SingleTask(View()) && Enabled(View(), step)
      modifies this
      ensures View() == Apply(old(View()), step) && SingleTask(View())
    {
      match step {
        case Boot => Start();
        case Dispatch => RestartIfNeeded();
        case CallEnsureRunning => EnsureTaskRunning();
        case CallEnsureStop => EnsureTaskStop();
        case Grant => ServeWaiter();
        case Resume => FinishStop();
        case Finish(t) => FinishTask(t);
        case Connect(t) => MarkConnected(t);
        case OtherStartFailure(t) => CountStartFailure(t);
        case _ => Proceed(step);
      }
    }
  }

  ghost function Extended(r: Run, step: Step): Run
    requires IsRun(r) && Enabled(r.states[|r.steps|], step)
  {
    Run(r.states + [Apply(r.states[|r.steps|], step)], r.steps + [step])
  }

  lemma ExtendRun(r: Run, step: Step)
    requires IsRun(r) && Enabled(r.states[|r.steps|], step)
    ensures IsRun(Extended(r, step))
  {
  }

  /** Carries out a schedule, leaving out the steps that are not enabled when their turn comes.
      What happens is a run of the protocol; a schedule that is a run is carried out in full. So
      all that holds of runs holds of the code: one task at most, and before the final stop a
      counter that equals the failures since the last connection and stays within five. */
  method Execute(schedule: seq<Step>) returns (server: Server, ghost r: Run)
    ensures IsRun(r) && r.states[|r.steps|] == server.View()
    ensures forall r' :: IsRun(r') && r'.steps == schedule ==> r == r'
    ensures SingleTask(server.View())
    ensures BeforeFinalStop(schedule) ==>
              server.consecutiveStartFailure == FailuresSinceConnection(r.steps)
              && server.consecutiveStartFailure <= CONSECUTIVE_START_ATTEMPT_THRESHOLD
  {
    server := new Server();
    r := Run([INITIAL], []);
    for k := 0 to |schedule|
      invariant IsRun(r) && r.states[|r.steps|] == server.View() && SingleTask(server.View())
      invariant forall r' :: IsRun(r') && r'.steps == schedule ==>
                  r.steps == schedule[..k] && r.states == r'.states[..k + 1]
      invariant BeforeFinalStop(schedule) ==> BeforeFinalStop(r.steps)
    {
      var step := schedule[k];
      if Enabled(server.View(), step) {
        ExtendRun(r, step);
        server.Perform(step);
        r := Extended(r, step);
      }
    }
    if BeforeFinalStop(schedule) {
      RestartCap(r, |r.steps|);
      assert r.steps[..|r.steps|] == r.steps;
    }
  }
}
