/** The job scheduler: registrations, one loop task per enabled job, and executions that
    may outlive the registration they began under.

    A job dictionary is an entry of `registered`, so that a run which is still in flight
    keeps updating the dictionary it began with, even after its name has been removed or
    registered again. Each function is one stretch of code between two suspension points;
    the class runs the same stretches in place. */
module Scheduler {
  import opened Text

  datatype RunResult = RunResult(output: string, returncode: int, timestamp: string)

  datatype Job = Job(
    name: string, command: string, interval: nat, enabled: bool,
    lastResult: Option<RunResult>, runCount: nat)

  /** A loop task: not started, asleep, executing a run, or over. */
  datatype Phase = Created | Sleeping | Executing(run: nat) | Over
  datatype Loop = Loop(name: string, phase: Phase, cancelled: bool)

  /** An execution: the dictionary it updates, the loop that awaits it (none for a run on
      request), and how it stands. */
  datatype Status = InFlight | Completed | Failed
  datatype Execution = Execution(job: nat, owner: Option<nat>, status: Status)

  datatype State = State(
    registered: seq<Job>,
    jobs: map<string, nat>,
    tasks: map<string, nat>,
    loops: seq<Loop>,
    runs: seq<Execution>)

  datatype Step =
    | Add(name: string, command: string, interval: nat, enabled: bool)
    | Remove(name: string)
    | RunNow(name: string)
    | RunEnds(run: nat, result: Option<RunResult>)
    | LoopStarts(loop: nat)
    | LoopWakes(loop: nat)
    | LoopRunEnds(loop: nat, result: Option<RunResult>)

  const EMPTY := State([], map[], map[], [], [])

  // ---------------------------------------------------------------------------
  // Steps
  // ---------------------------------------------------------------------------

  /** `name in _jobs and _jobs[name]["enabled"]` */
  predicate Runnable(s: State, name: string) {
    name in s.jobs && s.jobs[name] < |s.registered| && s.registered[s.jobs[name]].enabled
  }

  function CancelTask(s: State, name: string): State {
    if name in s.tasks && s.tasks[name] < |s.loops| then
      s.(loops := s.loops[s.tasks[name] := s.loops[s.tasks[name]].(cancelled := true)])
    else s
  }

  function StartLoop(s: State, name: string): State {
    var c := CancelTask(s, name);
    c.(loops := c.loops + [Loop(name, Created, false)], tasks := c.tasks[name := |c.loops|])
  }

  function StopLoop(s: State, name: string): State {
    CancelTask(s, name).(tasks := s.tasks - {name})
  }

  function AddJob(s: State, job: Job): State {
    if job.name in s.jobs then s
    else
      var added := s.(registered := s.registered + [job], jobs := s.jobs[job.name := |s.registered|]);
      if job.enabled then StartLoop(added, job.name) else added
  }

  function RemoveJob(s: State, name: string): State {
    if name !in s.jobs then s
    else
      var stopped := StopLoop(s, name);
      stopped.(jobs := stopped.jobs - {name})
  }

  /** `_execute` up to its suspension: the dictionary is looked up once. */
  function Begin(s: State, name: string, owner: Option<nat>): State
    requires name in s.jobs
  {
    s.(runs := s.runs + [Execution(s.jobs[name], owner, InFlight)])
  }

  /** `_execute` after its suspension: `None` stands for an exception. */
  function Finish(s: State, run: nat, result: Option<RunResult>): State
    requires run < |s.runs|
  {
    var job := s.runs[run].job;
    if result.Some? && job < |s.registered| then
      s.(runs := s.runs[run := s.runs[run].(status := Completed)],
         registered := s.registered[job := s.registered[job].(lastResult := result, runCount := s.registered[job].runCount + 1)])
    else s.(runs := s.runs[run := s.runs[run].(status := Failed)])
  }

  predicate InPhase(s: State, t: nat, phase: Phase) {
    t < |s.loops| && s.loops[t].phase == phase
  }

  function Enter(s: State, t: nat, phase: Phase): State
    requires t < |s.loops|
  {
    s.(loops := s.loops[t := s.loops[t].(phase := phase)])
  }

  /** The loop condition decides whether the task sleeps again. */
  function Again(s: State, t: nat): State
    requires t < |s.loops|
  {
    Enter(s, t, if Runnable(s, s.loops[t].name) then Sleeping else Over)
  }

  predicate Executes(s: State, t: nat) {
    t < |s.loops| && s.loops[t].phase.Executing? && s.loops[t].phase.run < |s.runs|
  }

  function Next(s: State, step: Step): State {
    match step
    case Add(name, command, interval, enabled) => AddJob(s, Job(name, command, interval, enabled, None, 0))
    case Remove(name) => RemoveJob(s, name)
    case RunNow(name) => if name in s.jobs then Begin(s, name, None) else s
    case RunEnds(run, result) =>
      if run < |s.runs| && s.runs[run].owner.None? && s.runs[run].status == InFlight then Finish(s, run, result) else s
    case LoopStarts(t) =>
      if !InPhase(s, t, Created) then s
      else if s.loops[t].cancelled then Enter(s, t, Over)
      else Again(s, t)
    case LoopWakes(t) =>
      if !InPhase(s, t, Sleeping) then s
      else if s.loops[t].cancelled then Enter(s, t, Over)
      else if Runnable(s, s.loops[t].name) then Enter(Begin(s, s.loops[t].name, Some(t)), t, Executing(|s.runs|))
      else Again(s, t)
    case LoopRunEnds(t, result) =>
      if !Executes(s, t) then s
      else if s.loops[t].cancelled then Enter(Finish(s, s.loops[t].phase.run, None), t, Over)
      else Again(Finish(s, s.loops[t].phase.run, result), t)
  }

  function RunSteps(s: State, steps: seq<Step>): State
    decreases |steps|
  {
    if steps == [] then s else RunSteps(Next(s, steps[0]), steps[1..])
  }

  // ---------------------------------------------------------------------------
  // Invariant
  // ---------------------------------------------------------------------------

  /** Completed executions begun under a registration. */
  function CompletedRuns(runs: seq<Execution>, job: nat): nat {
    if runs == [] then 0
    else (if runs[0].job == job && runs[0].status == Completed then 1 else 0) + CompletedRuns(runs[1..], job)
  }

  /** Names lead to registrations of that name. */
  ghost predicate JobsInv(s: State) {
    forall n :: n in s.jobs ==> s.jobs[n] < |s.registered| && s.registered[s.jobs[n]].name == n
  }

  /** A name has a registered task exactly when it is a registered enabled job, and that task
      is the only uncancelled loop for the name. */
  ghost predicate TasksInv(s: State) {
    && (forall n :: n in s.tasks <==> Runnable(s, n))
    && (forall n :: n in s.tasks ==>
          s.tasks[n] < |s.loops| && s.loops[s.tasks[n]].name == n
          && !s.loops[s.tasks[n]].cancelled && s.loops[s.tasks[n]].phase != Over)
    && (forall t :: 0 <= t < |s.loops| && !s.loops[t].cancelled ==>
          s.loops[t].name in s.tasks && s.tasks[s.loops[t].name] == t)
  }

  /** A loop that executes awaits its own run, which is in flight. */
  ghost predicate RunsInv(s: State) {
    && (forall t :: 0 <= t < |s.loops| && s.loops[t].phase.Executing? ==>
          s.loops[t].phase.run < |s.runs| && s.runs[s.loops[t].phase.run].owner == Some(t)
          && s.runs[s.loops[t].phase.run].status == InFlight)
    && (forall r :: 0 <= r < |s.runs| ==> s.runs[r].job < |s.registered|)
  }

  /** The run count of a registration is the number of its completed executions. */
  ghost predicate CountsInv(s: State) {
    forall j :: 0 <= j < |s.registered| ==> s.registered[j].runCount == CompletedRuns(s.runs, j)
  }

  ghost predicate Inv(s: State) {
    JobsInv(s) && TasksInv(s) && RunsInv(s) && CountsInv(s)
  }

  lemma {:induction false} CompletedAppend(runs: seq<Execution>, x: Execution, job: nat)
    requires x.status != Completed
    ensures CompletedRuns(runs + [x], job) == CompletedRuns(runs, job)
  {
    if runs != [] {
      assert (runs + [x])[1..] == runs[1..] + [x];
      CompletedAppend(runs[1..], x, job);
    } else {
      assert ([] + [x])[1..] == [];
    }
  }

  lemma {:induction false} CompletedUpdate(runs: seq<Execution>, r: nat, x: Execution, job: nat)
    requires r < |runs| && runs[r].status == InFlight && x.job == runs[r].job
    ensures CompletedRuns(runs[r := x], job) ==
            CompletedRuns(runs, job) + if x.status == Completed && x.job == job then 1 else 0
  {
    if r == 0 {
      assert runs[r := x][1..] == runs[1..];
    } else {
      assert runs[r := x][1..] == runs[1..][r - 1 := x];
      CompletedUpdate(runs[1..], r - 1, x, job);
    }
  }

  lemma {:induction false} NoRunsOf(runs: seq<Execution>, job: nat)
    requires forall r :: 0 <= r < |runs| ==> runs[r].job != job
    ensures CompletedRuns(runs, job) == 0
  {
    if runs != [] {
      NoRunsOf(runs[1..], job);
    }
  }

  lemma AddKeeps(s: State, job: Job)
    requires Inv(s) && job.runCount == 0
    ensures Inv(AddJob(s, job))
  {
    hide CompletedRuns;
    if job.name !in s.jobs {
      assert job.name !in s.tasks;
      NoRunsOf(s.runs, |s.registered|);
      AddTasks(s, job);
    }
  }

  lemma AddNames(s: State, job: Job)
    requires JobsInv(s) && TasksInv(s) && job.name !in s.jobs
    ensures var s' := AddJob(s, job);
            && (forall n :: n != job.name ==> (n in s'.tasks <==> n in s.tasks) && (Runnable(s', n) <==> Runnable(s, n)))
            && (forall n :: n in s.tasks ==> s'.tasks[n] == s.tasks[n])
            && (job.name in s'.tasks <==> Runnable(s', job.name))
            && (job.name in s'.tasks ==> s'.tasks[job.name] == |s.loops| && s'.loops == s.loops + [Loop(job.name, Created, false)])
            && (job.name !in s'.tasks ==> s'.loops == s.loops)
  {
  }

  lemma AddTasks(s: State, job: Job)
    requires JobsInv(s) && TasksInv(s) && job.name !in s.jobs
    ensures TasksInv(AddJob(s, job))
  {
    AddNames(s, job);
    hide AddJob, Runnable, JobsInv;
    assert job.name !in s.tasks;
  }

  lemma RemoveLoops(s: State, name: string)
    requires TasksInv(s) && name in s.jobs
    ensures var s' := RemoveJob(s, name);
            && |s'.loops| == |s.loops|
            && (forall t :: 0 <= t < |s.loops| ==> s'.loops[t].name == s.loops[t].name && s'.loops[t].phase == s.loops[t].phase)
            && (forall t :: 0 <= t < |s.loops| ==>
                  (s'.loops[t].cancelled <==> s.loops[t].cancelled || s.loops[t].name == name))
  {
    hide Runnable;
  }

  lemma RemoveTasks(s: State, name: string)
    requires JobsInv(s) && TasksInv(s) && name in s.jobs
    ensures TasksInv(RemoveJob(s, name))
  {
    RemoveLoops(s, name);
    var s' := RemoveJob(s, name);
    RemoveNames(s, name);
    assert forall n :: n in s'.tasks ==> s'.tasks[n] == s.tasks[n];
    hide RemoveJob, Runnable, JobsInv;
  }

  lemma RemoveNames(s: State, name: string)
    requires JobsInv(s) && TasksInv(s) && name in s.jobs
    ensures var s' := RemoveJob(s, name);
            && (forall n :: n in s'.tasks <==> n in s.tasks && n != name)
            && (forall n :: n in s'.tasks <==> Runnable(s', n))
            && (forall n :: n in s'.tasks ==> s'.tasks[n] == s.tasks[n])
  {
    var s' := RemoveJob(s, name);
    assert forall n :: n != name ==> (Runnable(s', n) <==> Runnable(s, n));
  }

  lemma RemoveRuns(s: State, name: string)
    requires RunsInv(s)
    ensures RunsInv(RemoveJob(s, name))
  {
    var s' := RemoveJob(s, name);
    assert forall t :: 0 <= t < |s'.loops| ==> s'.loops[t].phase == s.loops[t].phase;
  }

  lemma RemoveKeeps(s: State, name: string)
    requires Inv(s)
    ensures Inv(RemoveJob(s, name))
  {
    hide CompletedRuns, TasksInv, RunsInv;
    if name in s.jobs {
      RemoveTasks(s, name);
      RemoveRuns(s, name);
    }
  }

  lemma BeginKeeps(s: State, name: string, owner: Option<nat>)
    requires Inv(s) && name in s.jobs
    ensures Inv(Begin(s, name, owner))
  {
    hide CompletedRuns;
    var s' := Begin(s, name, owner);
    forall j | 0 <= j < |s.registered|
      ensures s'.registered[j].runCount == CompletedRuns(s'.runs, j)
    {
      CompletedAppend(s.runs, Execution(s.jobs[name], owner, InFlight), j);
    }
    assert forall n :: Runnable(s', n) <==> Runnable(s, n);
  }

  /** All but the promise that the loops in flight await a run in flight. */
  ghost predicate InvBut(s: State, t: int) {
    && JobsInv(s) && TasksInv(s) && CountsInv(s)
    && (forall u :: 0 <= u < |s.loops| && u != t && s.loops[u].phase.Executing? ==>
          s.loops[u].phase.run < |s.runs| && s.runs[s.loops[u].phase.run].owner == Some(u)
          && s.runs[s.loops[u].phase.run].status == InFlight)
    && (forall r :: 0 <= r < |s.runs| ==> s.runs[r].job < |s.registered|)
  }

  lemma FinishKeeps(s: State, run: nat, result: Option<RunResult>)
    requires Inv(s) && run < |s.runs| && s.runs[run].status == InFlight
    ensures InvBut(Finish(s, run, result), if s.runs[run].owner.Some? then s.runs[run].owner.value else -1)
  {
    hide CompletedRuns;
    var s' := Finish(s, run, result);
    forall j | 0 <= j < |s.registered|
      ensures s'.registered[j].runCount == CompletedRuns(s'.runs, j)
    {
      CompletedUpdate(s.runs, run, s'.runs[run], j);
    }
    assert forall n :: Runnable(s', n) <==> Runnable(s, n);
  }

  lemma EnterKeeps(s: State, t: nat, phase: Phase)
    requires InvBut(s, t) && t < |s.loops|
    requires phase == Over ==> s.loops[t].cancelled
    requires phase.Executing? ==>
               phase.run < |s.runs| && s.runs[phase.run].owner == Some(t) && s.runs[phase.run].status == InFlight
    ensures Inv(Enter(s, t, phase))
  {
    hide CompletedRuns;
    var s' := Enter(s, t, phase);
    assert forall n :: Runnable(s', n) <==> Runnable(s, n);
    assert forall u :: 0 <= u < |s.loops| ==> s'.loops[u].name == s.loops[u].name && s'.loops[u].cancelled == s.loops[u].cancelled;
  }

  lemma InvStep(s: State, step: Step)
    requires Inv(s)
    ensures Inv(Next(s, step))
  {
    hide CompletedRuns, AddJob, RemoveJob, Begin, Finish, Enter, CountsInv, JobsInv;
    match step
    case Add(name, command, interval, enabled) => AddKeeps(s, Job(name, command, interval, enabled, None, 0));
    case Remove(name) => RemoveKeeps(s, name);
    case RunNow(name) =>
      if name in s.jobs {
        BeginKeeps(s, name, None);
      }
    case RunEnds(run, result) =>
      if run < |s.runs| && s.runs[run].owner.None? && s.runs[run].status == InFlight {
        FinishKeeps(s, run, result);
      }
    case LoopStarts(t) =>
      if InPhase(s, t, Created) {
        EnterKeeps(s, t, if s.loops[t].cancelled then Over else Sleeping);
      }
    case LoopWakes(t) =>
      if InPhase(s, t, Sleeping) {
        if s.loops[t].cancelled {
          EnterKeeps(s, t, Over);
        } else {
          WakeKeeps(s, t);
        }
      }
    case LoopRunEnds(t, result) =>
      if Executes(s, t) {
        LoopRunKeeps(s, t, result);
      }
  }

  lemma WakeKeeps(s: State, t: nat)
    requires Inv(s) && InPhase(s, t, Sleeping) && !s.loops[t].cancelled
    ensures Runnable(s, s.loops[t].name)
    ensures Inv(Enter(Begin(s, s.loops[t].name, Some(t)), t, Executing(|s.runs|)))
  {
    hide CompletedRuns, JobsInv, CountsInv, Enter;
    BeginKeeps(s, s.loops[t].name, Some(t));
    EnterKeeps(Begin(s, s.loops[t].name, Some(t)), t, Executing(|s.runs|));
  }

  lemma LoopRunKeeps(s: State, t: nat, result: Option<RunResult>)
    requires Inv(s) && Executes(s, t)
    ensures Inv(Next(s, LoopRunEnds(t, result)))
  {
    hide CompletedRuns, JobsInv, CountsInv, Enter;
    var run := s.loops[t].phase.run;
    if s.loops[t].cancelled {
      FinishKeeps(s, run, None);
      EnterKeeps(Finish(s, run, None), t, Over);
    } else {
      FinishKeeps(s, run, result);
      var f := Finish(s, run, result);
      assert Runnable(f, f.loops[t].name);
      EnterKeeps(f, t, Sleeping);
    }
  }

  lemma {:induction false} InvRun(s: State, steps: seq<Step>)
    requires Inv(s)
    ensures Inv(RunSteps(s, steps))
    decreases |steps|
  {
    hide Inv, Next;
    if steps != [] {
      InvStep(s, steps[0]);
      InvRun(Next(s, steps[0]), steps[1..]);
    }
  }

  /** In every reachable state: a name has a registered task exactly when it is a registered
      enabled job; that task is live and the only uncancelled loop for the name; and every
      registration, past or present, counts exactly the completed executions that began
      under it. */
  lemma SchedulerInvariant(steps: seq<Step>)
    ensures var s := RunSteps(EMPTY, steps);
            && (forall n :: n in s.tasks <==> Runnable(s, n))
            && (forall n :: n in s.tasks ==>
                  s.tasks[n] < |s.loops| && s.loops[s.tasks[n]].name == n
                  && !s.loops[s.tasks[n]].cancelled && s.loops[s.tasks[n]].phase != Over)
            && (forall t :: 0 <= t < |s.loops| && !s.loops[t].cancelled ==>
                  s.loops[t].name in s.tasks && s.tasks[s.loops[t].name] == t)
            && (forall j :: 0 <= j < |s.registered| ==> s.registered[j].runCount == CompletedRuns(s.runs, j))
  {
    InvRun(EMPTY, steps);
  }

  lemma StepKeepsRuns(s: State, step: Step)
    ensures var s' := Next(s, step);
            && |s.runs| <= |s'.runs| && |s.registered| <= |s'.registered|
            && forall r :: 0 <= r < |s.runs| ==> s'.runs[r].job == s.runs[r].job
  {
  }

  /** A run stays with the registration it began under. */
  lemma {:induction false} StepsKeepRuns(s: State, steps: seq<Step>)
    ensures var end := RunSteps(s, steps);
            && |s.runs| <= |end.runs| && |s.registered| <= |end.registered|
            && forall r :: 0 <= r < |s.runs| ==> end.runs[r].job == s.runs[r].job
    decreases |steps|
  {
    hide Next;
    if steps != [] {
      StepKeepsRuns(s, steps[0]);
      StepsKeepRuns(Next(s, steps[0]), steps[1..]);
    }
  }

  lemma {:induction false} CompletedSplit(a: seq<Execution>, b: seq<Execution>, job: nat)
    ensures CompletedRuns(a + b, job) == CompletedRuns(a, job) + CompletedRuns(b, job)
  {
    if a == [] {
      assert a + b == b;
    } else {
      assert (a + b)[1..] == a[1..] + b;
      CompletedSplit(a[1..], b, job);
    }
  }

  lemma AgainFresh(s: State, name: string, command: string, interval: nat, enabled: bool)
    requires Inv(s) && name in s.jobs
    ensures var again := Next(Next(s, Remove(name)), Add(name, command, interval, enabled));
            && again.runs == s.runs && |again.registered| == |s.registered| + 1
            && again.jobs[name] == |s.registered| && again.registered[|s.registered|].runCount == 0
            && Inv(again)
  {
    hide CompletedRuns, CountsInv, TasksInv, RunsInv, JobsInv;
    InvStep(s, Remove(name));
    InvStep(Next(s, Remove(name)), Add(name, command, interval, enabled));
  }

  /** Registering a name again starts from zero, and whatever happens afterwards its count is
      that of the completed runs begun since: no run that was there before, in flight or not,
      ever shows in the new registration. */
  lemma OldRunsStayOld(s: State, name: string, command: string, interval: nat, enabled: bool, steps: seq<Step>)
    requires Inv(s) && name in s.jobs
    ensures var again := Next(Next(s, Remove(name)), Add(name, command, interval, enabled));
            var end, new_ := RunSteps(again, steps), |s.registered|;
            && again.jobs[name] == new_ && again.registered[new_].runCount == 0
            && new_ < |end.registered| && |s.runs| <= |end.runs|
            && end.registered[new_].runCount == CompletedRuns(end.runs[|s.runs|..], new_)
  {
    hide CompletedRuns, Next, TasksInv, JobsInv;
    var again := Next(Next(s, Remove(name)), Add(name, command, interval, enabled));
    var end, n := RunSteps(again, steps), |s.runs|;
    AgainFresh(s, name, command, interval, enabled);
    InvRun(again, steps);
    StepsKeepRuns(again, steps);
    assert end.runs == end.runs[..n] + end.runs[n..];
    CompletedSplit(end.runs[..n], end.runs[n..], |s.registered|);
    NoRunsOf(end.runs[..n], |s.registered|);
  }

  // ---------------------------------------------------------------------------
  // The same steps in place
  // ---------------------------------------------------------------------------

  class Service {
    var registered: seq<Job>
    var jobs: map<string, nat>
    var tasks: map<string, nat>
    var loops: seq<Loop>
    var runs: seq<Execution>

    function Abs(): State
      reads this
    {
      State(registered, jobs, tasks, loops, runs)
    }

    constructor ()
      ensures Abs() == EMPTY
    {
      registered, jobs, tasks, loops, runs := [], map[], map[], [], [];
    }

    method Cancel(t: nat)
      requires t < |loops|
      modifies `loops
      ensures loops == old(loops)[t := old(loops)[t].(cancelled := true)]
    {
      loops := loops[t := loops[t].(cancelled := true)];
    }

    method StartTask(name: string)
      requires name in tasks ==> tasks[name] < |loops|
      modifies `loops, `tasks
      ensures Abs() == StartLoop(old(Abs()), name)
    {
      if name in tasks {
        Cancel(tasks[name]);
      }
      tasks := tasks[name := |loops|];
      loops := loops + [Loop(name, Created, false)];
    }

    method Register(name: string, command: string, interval: nat, enabled: bool) returns (ok: bool)
      requires Inv(Abs())
      modifies this
      ensures ok <==> name !in old(jobs)
      ensures Abs() == Next(old(Abs()), Add(name, command, interval, enabled)) && Inv(Abs())
    {
      ghost var before := Abs();
      InvStep(before, Add(name, command, interval, enabled));
      if name in jobs {
        return false;
      }
      jobs := jobs[name := |registered|];
      registered := registered + [Job(name, command, interval, enabled, None, 0)];
      if enabled {
        StartTask(name);
      }
      return true;
    }

    method Unregister(name: string) returns (ok: bool)
      requires Inv(Abs())
      modifies this
      ensures ok <==> name in old(jobs)
      ensures Abs() == Next(old(Abs()), Remove(name)) && Inv(Abs())
    {
      ghost var before := Abs();
      InvStep(before, Remove(name));
      if name !in jobs {
        return false;
      }
      if name in tasks {
        Cancel(tasks[name]);
        tasks := tasks - {name};
      }
      jobs := jobs - {name};
      assert before.tasks - {name} == tasks;
      return true;
    }

    /** `run_job` up to its suspension: the run to await. */
    method RunJob(name: string) returns (run: Option<nat>)
      requires Inv(Abs())
      modifies `runs
      ensures run == if name in jobs then Some(old(|runs|)) else None
      ensures Abs() == Next(old(Abs()), RunNow(name)) && Inv(Abs())
    {
      InvStep(Abs(), RunNow(name));
      if name !in jobs {
        return None;
      }
      run := Some(|runs|);
      runs := runs + [Execution(jobs[name], None, InFlight)];
    }

    /** The end of `_execute`: the dictionary found at its beginning is updated. */
    method EndRun(run: nat, result: Option<RunResult>)
      requires run < |runs| && runs[run].job < |registered|
      modifies `runs, `registered
      ensures Abs() == Finish(old(Abs()), run, result)
    {
      if result.Some? {
        var job := runs[run].job;
        registered := registered[job := registered[job].(lastResult := result, runCount := registered[job].runCount + 1)];
        runs := runs[run := runs[run].(status := Completed)];
      } else {
        runs := runs[run := runs[run].(status := Failed)];
      }
    }

    /** `_loop` from its start to the first suspension. */
    method BeginLoop(t: nat)
      requires JobsInv(Abs()) && InPhase(Abs(), t, Created)
      modifies `loops
      ensures Abs() == Next(old(Abs()), LoopStarts(t))
      ensures Inv(old(Abs())) ==> Inv(Abs())
    {
      if Inv(Abs()) {
        InvStep(Abs(), LoopStarts(t));
      }
      var name := loops[t].name;
      if !loops[t].cancelled && name in jobs && registered[jobs[name]].enabled {
        loops := loops[t := loops[t].(phase := Sleeping)];
      } else {
        loops := loops[t := loops[t].(phase := Over)];
      }
    }

    /** `_loop` after its sleep, up to the next suspension. */
    method WakeLoop(t: nat)
      requires JobsInv(Abs()) && InPhase(Abs(), t, Sleeping)
      modifies `loops, `runs
      ensures Abs() == Next(old(Abs()), LoopWakes(t))
      ensures Inv(old(Abs())) ==> Inv(Abs())
    {
      if Inv(Abs()) {
        InvStep(Abs(), LoopWakes(t));
      }
      var name := loops[t].name;
      if loops[t].cancelled {
        loops := loops[t := loops[t].(phase := Over)];
      } else if name in jobs && registered[jobs[name]].enabled {
        loops := loops[t := loops[t].(phase := Executing(|runs|))];
        runs := runs + [Execution(jobs[name], Some(t), InFlight)];
      } else {
        loops := loops[t := loops[t].(phase := Over)];
      }
    }

    /** `_loop` after an execution, up to the next suspension. */
    method ResumeLoop(t: nat, result: Option<RunResult>)
      requires JobsInv(Abs()) && RunsInv(Abs()) && Executes(Abs(), t)
      modifies `loops, `runs, `registered
      ensures Abs() == Next(old(Abs()), LoopRunEnds(t, result))
      ensures Inv(old(Abs())) ==> Inv(Abs())
    {
      if Inv(Abs()) {
        InvStep(Abs(), LoopRunEnds(t, result));
      }
      if loops[t].cancelled {
        EndRun(loops[t].phase.run, None);
        loops := loops[t := loops[t].(phase := Over)];
      } else {
        EndRun(loops[t].phase.run, result);
        var name := loops[t].name;
        loops := loops[t := loops[t].(phase := if name in jobs && registered[jobs[name]].enabled then Sleeping else Over)];
      }
    }
  }
}
