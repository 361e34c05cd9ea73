/** What each step of the scheduler changes, and what that comes to over whole runs: every
    wake of a live loop begins one run, and a registration is what was added together with
    the results of the runs that completed under it. */
module SchedulerRuns {
  import opened Text
  import opened Scheduler

  // ---------------------------------------------------------------------------
  // Steps
  // ---------------------------------------------------------------------------

  /** A known name is refused; an unknown one gets a registration with the given command,
      interval and switch, and if that is on a loop of its own. */
  lemma AddMeaning(s: State, name: string, command: string, interval: nat, enabled: bool)
    requires Inv(s)
    ensures Next(s, Add(name, command, interval, enabled)) ==
            if name in s.jobs then s
            else
              State(
                s.registered + [Job(name, command, interval, enabled, None, 0)],
                s.jobs[name := |s.registered|],
                if enabled then s.tasks[name := |s.loops|] else s.tasks,
                if enabled then s.loops + [Loop(name, Created, false)] else s.loops,
                s.runs)
  {
    hide CountsInv, RunsInv;
    if name !in s.jobs {
      assert name !in s.tasks;
    }
  }

  /** A removal forgets the name and cancels its loop; registrations and runs stay. */
  lemma RemoveMeaning(s: State, name: string)
    requires Inv(s)
    ensures var s' := Next(s, Remove(name));
            if name !in s.jobs then s' == s
            else
              && s'.registered == s.registered && s'.runs == s.runs
              && s'.jobs == s.jobs - {name} && s'.tasks == s.tasks - {name}
              && s'.loops == (
                   if name in s.tasks then s.loops[s.tasks[name] := s.loops[s.tasks[name]].(cancelled := true)] else s.loops)
  {
    hide CountsInv, RunsInv;
  }

  /** A run on request begins under the registration the name has now. */
  lemma RequestMeaning(s: State, name: string)
    ensures Next(s, RunNow(name)) ==
            if name in s.jobs then s.(runs := s.runs + [Execution(s.jobs[name], None, InFlight)]) else s
  {
  }

  /** A loop that starts goes to sleep, unless it has been cancelled already. */
  lemma StartMeaning(s: State, t: nat)
    requires Inv(s)
    ensures Next(s, LoopStarts(t)) ==
            if t < |s.loops| && s.loops[t].phase == Created then
              s.(loops := s.loops[t := s.loops[t].(phase := if s.loops[t].cancelled then Over else Sleeping)])
            else s
  {
    hide CountsInv, RunsInv;
  }

  /** A live loop that wakes begins one run of its job and awaits it; a cancelled one ends. */
  lemma WakeMeaning(s: State, t: nat)
    requires Inv(s) && t < |s.loops| && s.loops[t].phase == Sleeping
    ensures var s', name := Next(s, LoopWakes(t)), s.loops[t].name;
            if s.loops[t].cancelled then s' == s.(loops := s.loops[t := Loop(name, Over, true)])
            else
              && name in s.jobs && s.jobs[name] < |s.registered|
              && s.registered[s.jobs[name]].name == name && s.registered[s.jobs[name]].enabled
              && s'.runs == s.runs + [Execution(s.jobs[name], Some(t), InFlight)]
              && s'.loops == s.loops[t := Loop(name, Executing(|s.runs|), false)]
              && s'.registered == s.registered && s'.jobs == s.jobs && s'.tasks == s.tasks
  {
    hide CountsInv, RunsInv;
  }

  /** What the end of run `r` leaves: its status, and if there is a result the registration
      it began under shows it and counts one more. */
  ghost predicate RunEnded(s: State, s': State, r: nat, result: Option<RunResult>)
    requires r < |s.runs|
  {
    var j := s.runs[r].job;
    && s'.runs == s.runs[r := Execution(j, s.runs[r].owner, if result.Some? then Completed else Failed)]
    && s'.jobs == s.jobs && s'.tasks == s.tasks
    && (result.None? ==> s'.registered == s.registered)
    && (result.Some? ==>
          j < |s.registered|
          && s'.registered == s.registered[j := s.registered[j].(lastResult := result, runCount := s.registered[j].runCount + 1)])
  }

  lemma RequestEndMeaning(s: State, r: nat, result: Option<RunResult>)
    requires Inv(s)
    ensures var s' := Next(s, RunEnds(r, result));
            if r < |s.runs| && s.runs[r].owner.None? && s.runs[r].status == InFlight then
              RunEnded(s, s', r, result) && s'.loops == s.loops
            else s' == s
  {
    hide CountsInv, TasksInv;
  }

  /** After its run a live loop sleeps again, whether the run succeeded or not; a cancelled
      loop takes no result and ends. */
  lemma LoopRunEndMeaning(s: State, t: nat, result: Option<RunResult>)
    requires Inv(s) && t < |s.loops| && s.loops[t].phase.Executing?
    ensures var s', name, r := Next(s, LoopRunEnds(t, result)), s.loops[t].name, s.loops[t].phase.run;
            && r < |s.runs| && s.runs[r].owner == Some(t)
            && RunEnded(s, s', r, if s.loops[t].cancelled then None else result)
            && s'.loops == s.loops[t := Loop(name, if s.loops[t].cancelled then Over else Sleeping, s.loops[t].cancelled)]
  {
    hide CountsInv;
  }

  lemma OtherwiseNothing(s: State, t: nat, result: Option<RunResult>)
    ensures !(t < |s.loops| && s.loops[t].phase == Sleeping) ==> Next(s, LoopWakes(t)) == s
    ensures !(t < |s.loops| && s.loops[t].phase.Executing?) ==> Next(s, LoopRunEnds(t, result)) == s
  {
  }

  // ---------------------------------------------------------------------------
  // Every wake begins a run
  // ---------------------------------------------------------------------------

  /** The runs begun by a loop. */
  function BegunBy(runs: seq<Execution>, t: nat): nat {
    if runs == [] then 0 else (if runs[0].owner == Some(t) then 1 else 0) + BegunBy(runs[1..], t)
  }

  /** The times a loop woke while it was asleep and not cancelled. */
  function Wakes(s: State, steps: seq<Step>, t: nat): nat
    decreases |steps|
  {
    if steps == [] then 0
    else
      (if steps[0] == LoopWakes(t) && t < |s.loops| && s.loops[t].phase == Sleeping && !s.loops[t].cancelled then 1 else 0)
      + Wakes(Next(s, steps[0]), steps[1..], t)
  }

  lemma {:induction false} BegunAppend(runs: seq<Execution>, x: Execution, t: nat)
    ensures BegunBy(runs + [x], t) == BegunBy(runs, t) + if x.owner == Some(t) then 1 else 0
  {
    if runs == [] {
      assert ([] + [x])[1..] == [];
    } else {
      assert (runs + [x])[1..] == runs[1..] + [x];
      BegunAppend(runs[1..], x, t);
    }
  }

  lemma {:induction false} BegunUpdate(runs: seq<Execution>, r: nat, x: Execution, t: nat)
    requires r < |runs| && x.owner == runs[r].owner
    ensures BegunBy(runs[r := x], t) == BegunBy(runs, t)
  {
    if r == 0 {
      assert runs[r := x][1..] == runs[1..];
    } else {
      assert runs[r := x][1..] == runs[1..][r - 1 := x];
      BegunUpdate(runs[1..], r - 1, x, t);
    }
  }

  /** One step begins a run of the loop exactly if it is a wake of it, alive and asleep. */
  lemma BegunStep(s: State, step: Step, t: nat)
    requires Inv(s)
    ensures BegunBy(Next(s, step).runs, t) == BegunBy(s.runs, t) + Wakes(s, [step], t)
  {
    hide Inv, Next, BegunBy;
    assert Wakes(Next(s, step), [step][1..], t) == 0;
    match step
    case Add(name, command, interval, enabled) => AddMeaning(s, name, command, interval, enabled);
    case Remove(name) => RemoveMeaning(s, name);
    case RunNow(name) =>
      RequestMeaning(s, name);
      if name in s.jobs {
        BegunAppend(s.runs, Execution(s.jobs[name], None, InFlight), t);
      }
    case RunEnds(r, result) =>
      RequestEndMeaning(s, r, result);
      if r < |s.runs| && s.runs[r].owner.None? && s.runs[r].status == InFlight {
        BegunUpdate(s.runs, r, Next(s, step).runs[r], t);
      }
    case LoopStarts(u) => StartMeaning(s, u);
    case LoopWakes(u) =>
      if u < |s.loops| && s.loops[u].phase == Sleeping {
        WakeMeaning(s, u);
        if !s.loops[u].cancelled {
          BegunAppend(s.runs, Execution(s.jobs[s.loops[u].name], Some(u), InFlight), t);
        }
      } else {
        OtherwiseNothing(s, u, None);
      }
    case LoopRunEnds(u, result) =>
      if u < |s.loops| && s.loops[u].phase.Executing? {
        LoopRunEndMeaning(s, u, result);
        BegunUpdate(s.runs, s.loops[u].phase.run, Next(s, step).runs[s.loops[u].phase.run], t);
      } else {
        OtherwiseNothing(s, u, result);
      }
  }

  /** Over every run: a loop has begun exactly one run for each time it woke while alive. */
  lemma {:induction false} EachWakeRuns(s: State, steps: seq<Step>, t: nat)
    requires Inv(s)
    ensures BegunBy(RunSteps(s, steps).runs, t) == BegunBy(s.runs, t) + Wakes(s, steps, t)
    decreases |steps|
  {
    hide Inv, Next, BegunBy;
    if steps != [] {
      InvStep(s, steps[0]);
      BegunStep(s, steps[0], t);
      EachWakeRuns(Next(s, steps[0]), steps[1..], t);
      assert Wakes(Next(s, steps[0]), [steps[0]][1..], t) == 0;
    }
  }

  // ---------------------------------------------------------------------------
  // What a registration shows
  // ---------------------------------------------------------------------------

  /** The result a step brings to a registration: that of a run in flight which began under
      it, awaited by nobody or by a loop that has not been cancelled. */
  function Brings(s: State, step: Step, j: nat): seq<RunResult> {
    match step
    case RunEnds(r, Some(x)) =>
      if r < |s.runs| && s.runs[r] == Execution(j, None, InFlight) then [x] else []
    case LoopRunEnds(t, Some(x)) =>
      if t < |s.loops| && s.loops[t].phase.Executing? && !s.loops[t].cancelled
         && s.loops[t].phase.run < |s.runs| && s.runs[s.loops[t].phase.run].job == j then [x] else []
    case _ => []
  }

  /** The results of the runs that completed under a registration, in order of completion. */
  function Results(s: State, steps: seq<Step>, j: nat): seq<RunResult>
    decreases |steps|
  {
    if steps == [] then [] else Brings(s, steps[0], j) + Results(Next(s, steps[0]), steps[1..], j)
  }

  /** A job dictionary after more results. */
  function Shown(job: Job, results: seq<RunResult>): Job {
    job.(lastResult := if results == [] then job.lastResult else Some(results[|results| - 1]),
         runCount := job.runCount + |results|)
  }

  lemma ShownMore(job: Job, a: seq<RunResult>, b: seq<RunResult>)
    ensures Shown(Shown(job, a), b) == Shown(job, a + b)
  {
  }

  lemma ShownStep(s: State, step: Step, j: nat)
    requires Inv(s) && j < |s.registered|
    ensures j < |Next(s, step).registered|
    ensures Next(s, step).registered[j] == Shown(s.registered[j], Brings(s, step, j))
  {
    hide Inv, Next;
    match step
    case Add(name, command, interval, enabled) => AddMeaning(s, name, command, interval, enabled);
    case Remove(name) => RemoveMeaning(s, name);
    case RunNow(name) => RequestMeaning(s, name);
    case RunEnds(r, result) => RequestEndMeaning(s, r, result);
    case LoopStarts(u) => StartMeaning(s, u);
    case LoopWakes(u) =>
      if u < |s.loops| && s.loops[u].phase == Sleeping {
        WakeMeaning(s, u);
      } else {
        OtherwiseNothing(s, u, None);
      }
    case LoopRunEnds(u, result) =>
      if u < |s.loops| && s.loops[u].phase.Executing? {
        LoopRunEndMeaning(s, u, result);
      } else {
        OtherwiseNothing(s, u, result);
      }
  }

  /** Over every run a registration keeps all it was given, shows the result of its latest
      completed run and counts the completed ones. */
  lemma {:induction false} RegistrationKept(s: State, steps: seq<Step>, j: nat)
    requires Inv(s) && j < |s.registered|
    ensures j < |RunSteps(s, steps).registered|
    ensures RunSteps(s, steps).registered[j] == Shown(s.registered[j], Results(s, steps, j))
    decreases |steps|
  {
    hide Inv, Next, Brings;
    if steps != [] {
      InvStep(s, steps[0]);
      ShownStep(s, steps[0], j);
      RegistrationKept(Next(s, steps[0]), steps[1..], j);
      ShownMore(s.registered[j], Brings(s, steps[0], j), Results(Next(s, steps[0]), steps[1..], j));
    }
  }

  /** The life of a registration, whatever happens to its name: the name, command, interval
      and switch given to `add_job`, and the last and the number of the results that runs
      begun under it have brought. */
  lemma RegistrationLife(s: State, name: string, command: string, interval: nat, enabled: bool, steps: seq<Step>)
    requires Inv(s) && name !in s.jobs
    ensures var added, j := Next(s, Add(name, command, interval, enabled)), |s.registered|;
            var end, results := RunSteps(added, steps), Results(added, steps, j);
            && j < |end.registered|
            && end.registered[j].name == name && end.registered[j].command == command
            && end.registered[j].interval == interval && end.registered[j].enabled == enabled
            && end.registered[j].lastResult == (if results == [] then None else Some(results[|results| - 1]))
            && end.registered[j].runCount == |results|
  {
    hide Inv, Next, Results, RunSteps;
    AddMeaning(s, name, command, interval, enabled);
    InvStep(s, Add(name, command, interval, enabled));
    RegistrationKept(Next(s, Add(name, command, interval, enabled)), steps, |s.registered|);
  }
}
