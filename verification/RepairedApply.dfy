/** The guarded-apply protocol as its endpoints document it, for a variant that keeps the
    promise: the old timer is cancelled before the new checkpoint is taken, every timer owns
    the content it restores, a confirmation is refused once restoring has begun, a refused
    configuration leaves the pending apply alone, reloads succeed, and only guarded steps
    write the file. */
module RepairedApply {
  import opened Text
  import opened ConfigManager

  /** A rollback task and the content it restores. */
  datatype Guard = Guard(phase: Phase, cancelled: bool, base: Option<string>)

  datatype Stage = Free | Applying(base: Option<string>) | Applied(base: Option<string>)

  datatype System = System(
    file: Option<string>,
    daemon: Option<string>,
    backups: map<string, string>,
    task: Option<nat>,
    guards: seq<Guard>,
    stage: Stage)

  datatype Step =
    | Begin(content: string)
    | Reload
    | Resume
    | Confirmation
    | Expiry(timer: nat)
    | RestoreReloaded(timer: nat)
    | PlaybookCheckpoint(now: string)

  predicate Live(s: System, t: nat) {
    t < |s.guards| && s.guards[t].phase == Sleeping && !s.guards[t].cancelled
  }

  predicate Registered(s: System) {
    s.task.Some? && Live(s, s.task.value)
  }

  function CancelGuard(s: System): System {
    if Registered(s) then
      s.(guards := s.guards[s.task.value := s.guards[s.task.value].(cancelled := true)], task := None)
    else s.(task := None)
  }

  predicate Accepts(s: System, step: Step) {
    match step
    case Begin(content) => s.stage == Free && Writable(content)
    case Confirmation => Registered(s)
    case Expiry(t) => t < |s.guards| && s.guards[t].phase == Sleeping
    case RestoreReloaded(t) => t < |s.guards| && s.guards[t].phase == Restoring
    case Reload => s.stage.Applying?
    case Resume => s.stage.Applied?
    case PlaybookCheckpoint(_) => s.file.Some?
  }

  function Next(s: System, step: Step): System {
    if !Accepts(s, step) then s
    else
      match step
      case Begin(content) =>
        CancelGuard(s).(file := Some(content), stage := Applying(s.file))
      case Reload => s.(daemon := s.file, stage := Applied(s.stage.base))
      case Resume =>
        s.(guards := s.guards + [Guard(Sleeping, false, s.stage.base)], task := Some(|s.guards|), stage := Free)
      case Confirmation => CancelGuard(s)
      case Expiry(t) =>
        if Live(s, t) && s.guards[t].base.Some? then
          s.(file := s.guards[t].base, guards := s.guards[t := s.guards[t].(phase := Restoring)])
        else s.(guards := s.guards[t := s.guards[t].(phase := Finished)])
      case RestoreReloaded(t) =>
        s.(daemon := s.file, guards := s.guards[t := s.guards[t].(phase := Finished)])
      case PlaybookCheckpoint(now) =>
        s.(backups := s.backups[CheckpointName(now) := s.file.value])
  }

  function Run(s: System, steps: seq<Step>): System
    decreases |steps|
  {
    if steps == [] then s else Run(Next(s, steps[0]), steps[1..])
  }

  /** The promise of the latest apply, told from the accepted steps. */
  function PromiseAfter(s: System, step: Step, p: Option<Promise>): Option<Promise> {
    if !Accepts(s, step) then p
    else if step.Begin? then Some(Promise(step.content, s.file, Awaiting))
    else if p.None? then None
    else if step.Confirmation? then Some(p.value.(outcome := Confirmed))
    else if step.Expiry? && Live(s, step.timer) then Some(p.value.(outcome := Expired))
    else p
  }

  function LatestPromise(s: System, steps: seq<Step>, p: Option<Promise>): Option<Promise>
    decreases |steps|
  {
    if steps == [] then p else LatestPromise(Next(s, steps[0]), steps[1..], PromiseAfter(s, steps[0], p))
  }

  predicate Initial(s: System) {
    s.task.None? && s.guards == [] && s.stage == Free
  }

  /** No apply holds the lock, no timer is pending and no restore is under way. */
  predicate Settled(s: System) {
    s.stage == Free
    && forall t :: 0 <= t < |s.guards| ==> s.guards[t].phase == Finished || (s.guards[t].phase == Sleeping && s.guards[t].cancelled)
  }

  predicate ReloadAhead(s: System) {
    s.stage.Applying? || exists t :: 0 <= t < |s.guards| && s.guards[t].phase == Restoring
  }

  ghost predicate Inv(s: System, p: Option<Promise>) {
    && (s.task.Some? ==> s.task.value < |s.guards|)
    && (forall t: nat :: Live(s, t) ==> s.task == Some(t) && s.stage == Free)
    && match p
       case None => s.stage == Free && s.guards == []
       case Some(p) =>
         && (ReloadAhead(s) || s.daemon == s.file)
         && (s.stage != Free ==> p.outcome == Awaiting && s.stage.base == p.replaced && s.file == Some(p.content))
         && (s.stage == Free && p.outcome == Awaiting ==>
               Registered(s) && s.guards[s.task.value].base == p.replaced && s.file == Some(p.content))
         && (p.outcome != Awaiting ==>
               s.stage == Free && !Registered(s) && s.file == Some(Due(p)))
  }

  lemma InvExpiry(s: System, p: Option<Promise>, step: Step)
    requires Inv(s, p) && step.Expiry?
    ensures Inv(Next(s, step), PromiseAfter(s, step, p))
  {
    hide Writable, CheckpointName;
    var s', t := Next(s, step), step.timer;
    if u :| 0 <= u < |s.guards| && s.guards[u].phase == Restoring {
      assert s'.guards[u].phase == Restoring;
    }
    if Accepts(s, step) && Live(s, t) && s.guards[t].base.Some? {
      assert s'.guards[t].phase == Restoring;
    }
    forall u: nat | Live(s', u)
      ensures s'.task == Some(u) && s'.stage == Free
    {
      assert Live(s, u);
    }
  }

  lemma InvOther(s: System, p: Option<Promise>, step: Step)
    requires Inv(s, p) && !step.Expiry?
    ensures Inv(Next(s, step), PromiseAfter(s, step, p))
  {
    hide Writable, CheckpointName;
    var s' := Next(s, step);
    if u :| 0 <= u < |s.guards| && s.guards[u].phase == Restoring {
      assert step != RestoreReloaded(u) ==> s'.guards[u].phase == Restoring;
    }
    forall u: nat | Live(s', u)
      ensures s'.task == Some(u) && s'.stage == Free
    {
      assert u < |s.guards| ==> Live(s, u);
    }
  }

  lemma InvStep(s: System, p: Option<Promise>, step: Step)
    requires Inv(s, p)
    ensures Inv(Next(s, step), PromiseAfter(s, step, p))
  {
    hide Inv, Next, PromiseAfter;
    if step.Expiry? {
      InvExpiry(s, p, step);
    } else {
      InvOther(s, p, step);
    }
  }

  lemma {:induction false} InvRun(s: System, p: Option<Promise>, steps: seq<Step>)
    requires Inv(s, p)
    ensures Inv(Run(s, steps), LatestPromise(s, steps, p))
    decreases |steps|
  {
    hide Inv, Next, PromiseAfter;
    if steps != [] {
      InvStep(s, p, steps[0]);
      InvRun(Next(s, steps[0]), PromiseAfter(s, steps[0], p), steps[1..]);
    }
  }

  /** Whenever nothing is pending or in flight after an apply, file and daemon both hold
      that apply's content if it was confirmed, and what it replaced if it expired. */
  lemma PromiseKept(s: System, steps: seq<Step>)
    requires Initial(s)
    requires LatestPromise(s, steps, None).Some? && Settled(Run(s, steps))
    ensures var end := Run(s, steps);
            Kept(LatestPromise(s, steps, None).value, end.file, end.daemon)
  {
    InvRun(s, None, steps);
  }

  /** A confirmation and an expiry exclude each other: until one of them happens the apply
      is the one pending, and whichever comes first settles it. */
  lemma FirstDecides(s: System, steps: seq<Step>, t: nat)
    requires Initial(s)
    ensures var now := Run(s, steps);
            && (Accepts(now, Confirmation) ==> Next(Next(now, Confirmation), Expiry(t)).file == now.file)
            && (Live(now, t) ==> !Accepts(Next(now, Expiry(t)), Confirmation))
  {
    InvRun(s, None, steps);
    var now, p := Run(s, steps), LatestPromise(s, steps, None);
    InvStep(now, p, Confirmation);
    assert Accepts(now, Confirmation) ==> !Live(Next(now, Confirmation), t);
    assert Live(now, t) ==> now.task == Some(t);
  }
}
