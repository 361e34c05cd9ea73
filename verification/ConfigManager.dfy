/** The configuration file, its backups and the guarded-apply timer.

    `State` is what the module keeps: the file, the backup directory (flat names to
    contents), the configuration the daemon has loaded, the two module globals, the
    rollback tasks created so far and the apply that holds the lock. Each function on
    `State` is one stretch of code between two suspension points; the class runs the same
    stretches in place. */
module ConfigManager {
  import opened Text

  datatype Error =
    | NotFound
    | EmptyContent
    | NoSectionHeader
    | AlreadyExists
    | NoSuchEntry
    | BadArgument
    | NothingPending
    | ReloadFailed

  datatype Result<+T> = Ok(value: T) | Err(error: Error)

  /** A rollback task: waiting for its deadline, waiting for the reload after it has
      restored the file, or over. */
  datatype Phase = Sleeping | Restoring | Finished
  datatype Timer = Timer(phase: Phase, cancelled: bool)

  /** The guarded apply that holds the lock, if any. */
  datatype Apply = Idle | Reloading | Reloaded(ok: bool)

  datatype State = State(
    file: Option<string>,
    backups: map<string, string>,
    daemon: Option<string>,
    task: Option<nat>,
    checkpoint: Option<string>,
    timers: seq<Timer>,
    apply: Apply)

  // ---------------------------------------------------------------------------
  // Writing and rolling back
  // ---------------------------------------------------------------------------

  /** The checks of `write_config`. */
  function Refusal(content: string): Option<Error> {
    if Strip(content) == "" then Some(EmptyContent)
    else if '[' !in Strip(content) then Some(NoSectionHeader)
    else None
  }

  predicate Writable(content: string) {
    Refusal(content).None?
  }

  function BakName(now: string): string {
    "accel-ppp.conf." + now + ".bak"
  }

  function CheckpointName(now: string): string {
    "accel-ppp.conf." + now + ".checkpoint"
  }

  function Write(s: State, content: string, backup: bool, now: string): State {
    if !Writable(content) then s
    else
      s.(file := Some(content),
         backups := if backup && s.file.Some? then s.backups[BakName(now) := s.file.value] else s.backups)
  }

  /** A backup name the service accepts: a flat file name. */
  predicate FlatName(name: string) {
    name != "" && name != "." && name != ".." && '/' !in name && '\\' !in name
  }

  predicate KnownBackup(s: State, name: string) {
    FlatName(name) && name in s.backups
  }

  /** The backup is read before the safety copy is made. */
  function RollBack(s: State, name: string, now: string): State {
    if KnownBackup(s, name) then Write(s, s.backups[name], true, now) else s
  }

  lemma BakNameIsFlat(now: string)
    requires '/' !in now && '\\' !in now
    ensures FlatName(BakName(now))
  {
    var name := BakName(now);
    assert name[0] == 'a';
    assert forall c :: c in name ==> c in "accel-ppp.conf." || c in now || c in ".bak";
  }

  /** A rollback can be undone, whatever the clock says, even when the safety copy takes
      the name of the backup being restored: the file gets what the backup held at the
      call, the safety copy holds the configuration it replaces, and rolling back to the
      safety copy brings that configuration back exactly if it passes the write checks. */
  lemma RollbackUndone(s: State, name: string, now: string, later: string)
    requires KnownBackup(s, name) && s.file.Some?
    requires '/' !in now && '\\' !in now
    ensures var rolled := RollBack(s, name, now);
            if !Writable(s.backups[name]) then rolled == s
            else
              && rolled.file == Some(s.backups[name])
              && KnownBackup(rolled, BakName(now))
              && rolled.backups[BakName(now)] == s.file.value
              && (RollBack(rolled, BakName(now), later).file == s.file <==> Writable(s.file.value))
              && (Writable(s.file.value) ==>
                    RollBack(rolled, BakName(now), later).backups[BakName(later)] == s.backups[name])
  {
    BakNameIsFlat(now);
  }

  // ---------------------------------------------------------------------------
  // Guarded apply
  // ---------------------------------------------------------------------------

  function Checkpoint(s: State, now: string): State {
    if s.file.None? then s
    else
      s.(backups := s.backups[CheckpointName(now) := s.file.value],
         checkpoint := Some(CheckpointName(now)))
  }

  predicate Pending(s: State) {
    s.task.Some? && s.task.value < |s.timers| && s.timers[s.task.value].phase != Finished
  }

  function Cancel(s: State): State {
    s.(timers := if Pending(s) then s.timers[s.task.value := s.timers[s.task.value].(cancelled := true)] else s.timers,
       task := None,
       checkpoint := None)
  }

  function StartTimer(s: State): State {
    var c := Cancel(s);
    c.(timers := c.timers + [Timer(Sleeping, false)], task := Some(|c.timers|))
  }

  predicate InPhase(s: State, t: nat, phase: Phase) {
    t < |s.timers| && s.timers[t].phase == phase
  }

  function EnterPhase(s: State, t: nat, phase: Phase): State
    requires t < |s.timers|
  {
    s.(timers := s.timers[t := s.timers[t].(phase := phase)])
  }

  /** `_auto_rollback` goes on after its sleep: by then it may have been cancelled. */
  function Wake(s: State, t: nat): State {
    if !InPhase(s, t, Sleeping) then s
    else if !s.timers[t].cancelled && s.checkpoint.Some? && s.checkpoint.value in s.backups then
      EnterPhase(s, t, Restoring).(file := Some(s.backups[s.checkpoint.value]))
    else EnterPhase(s, t, Finished)
  }

  /** The reload that follows a restore takes effect or not; the task ends either way. */
  function RestoreReload(s: State, t: nat, ok: bool): State {
    if !InPhase(s, t, Restoring) then s
    else EnterPhase(s, t, Finished).(daemon := if ok then s.file else s.daemon)
  }

  /** `guarded_apply` from taking the lock to its reload. */
  function ApplyBegin(s: State, content: string, now: string): State {
    if s.apply != Idle then s
    else
      var c := Checkpoint(s, now);
      if Writable(content) then Write(c, content, true, now).(apply := Reloading) else c
  }

  function ApplyReload(s: State, ok: bool): State {
    if s.apply != Reloading then s
    else s.(apply := Reloaded(ok), daemon := if ok then s.file else s.daemon)
  }

  /** `guarded_apply` from its reload to releasing the lock. */
  function ApplyResume(s: State): State {
    match s.apply
    case Reloaded(true) => StartTimer(s).(apply := Idle)
    case Reloaded(false) => s.(apply := Idle)
    case _ => s
  }

  function Confirm(s: State): State {
    if Pending(s) then Cancel(s) else s
  }

  // ---------------------------------------------------------------------------
  // What the endpoints promise
  // ---------------------------------------------------------------------------

  datatype Outcome = Awaiting | Confirmed | Expired

  /** An apply: its content, the content it replaced (if there was a file), its outcome. */
  datatype Promise = Promise(content: string, replaced: Option<string>, outcome: Outcome)

  /** The content that should be in force once the apply is over. */
  function Due(p: Promise): string {
    if p.outcome.Expired? && p.replaced.Some? then p.replaced.value else p.content
  }

  predicate Kept(p: Promise, file: Option<string>, daemon: Option<string>) {
    !p.outcome.Awaiting? && file == daemon == Some(Due(p))
  }

  // ---------------------------------------------------------------------------
  // The same steps in place
  // ---------------------------------------------------------------------------

  class Manager {
    var file: Option<string>
    var backups: map<string, string>
    var daemon: Option<string>
    var task: Option<nat>
    var checkpoint: Option<string>
    var timers: seq<Timer>
    var apply: Apply

    function Abs(): State
      reads this
    {
      State(file, backups, daemon, task, checkpoint, timers, apply)
    }

    method WriteConfig(content: string, backup: bool, now: string) returns (r: Result<Option<string>>)
      modifies `file, `backups
      ensures Abs() == Write(old(Abs()), content, backup, now)
      ensures r == match Refusal(content)
                   case Some(e) => Err(e)
                   case None => Ok(if backup && old(file).Some? then Some(BakName(now)) else None)
    {
      var stripped := Strip(content);
      if stripped == "" {
        return Err(EmptyContent);
      }
      if '[' !in stripped {
        return Err(NoSectionHeader);
      }
      var backupPath := None;
      if backup && file.Some? {
        backups := backups[BakName(now) := file.value];
        backupPath := Some(BakName(now));
      }
      file := Some(content);
      return Ok(backupPath);
    }

    method RollbackTo(name: string, now: string) returns (r: Result<string>)
      modifies `file, `backups
      ensures Abs() == RollBack(old(Abs()), name, now)
      ensures r.Ok? <==> KnownBackup(old(Abs()), name) && Writable(old(backups)[name])
      ensures r.Ok? ==> r.value == if old(file).Some? then BakName(now) else ""
      ensures !KnownBackup(old(Abs()), name) ==> r == Err(NotFound)
    {
      if !FlatName(name) || name !in backups {
        return Err(NotFound);
      }
      var safety := WriteConfig(backups[name], true, now);
      match safety {
        case Err(e) => return Err(e);
        case Ok(path) => return Ok(if path.Some? then path.value else "");
      }
    }

    method CreateCheckpoint(now: string) returns (path: Option<string>)
      modifies `backups, `checkpoint
      ensures Abs() == Checkpoint(old(Abs()), now)
      ensures path == if file.Some? then Some(CheckpointName(now)) else None
    {
      if file.None? {
        return None;
      }
      backups := backups[CheckpointName(now) := file.value];
      checkpoint := Some(CheckpointName(now));
      return checkpoint;
    }

    method GuardedApplyStatus() returns (pending: bool, path: Option<string>)
      ensures pending == Pending(Abs()) && path == checkpoint
    {
      pending := task.Some? && task.value < |timers| && timers[task.value].phase != Finished;
      path := checkpoint;
    }

    method CancelGuardedTimer()
      modifies `task, `checkpoint, `timers
      ensures Abs() == Cancel(old(Abs()))
    {
      if task.Some? && task.value < |timers| && timers[task.value].phase != Finished {
        timers := timers[task.value := timers[task.value].(cancelled := true)];
      }
      task := None;
      checkpoint := None;
    }

    method StartGuardedTimer()
      modifies `task, `checkpoint, `timers
      ensures Abs() == StartTimer(old(Abs()))
    {
      CancelGuardedTimer();
      task := Some(|timers|);
      timers := timers + [Timer(Sleeping, false)];
    }

    method AutoRollbackWake(t: nat)
      requires InPhase(Abs(), t, Sleeping)
      modifies `file, `timers
      ensures Abs() == Wake(old(Abs()), t)
    {
      if timers[t].cancelled {
        timers := timers[t := timers[t].(phase := Finished)];
      } else if checkpoint.Some? && checkpoint.value in backups {
        file := Some(backups[checkpoint.value]);
        timers := timers[t := timers[t].(phase := Restoring)];
      } else {
        timers := timers[t := timers[t].(phase := Finished)];
      }
    }

    method AutoRollbackReload(t: nat, ok: bool)
      requires InPhase(Abs(), t, Restoring)
      modifies `daemon, `timers
      ensures Abs() == RestoreReload(old(Abs()), t, ok)
    {
      if ok {
        daemon := file;
      }
      timers := timers[t := timers[t].(phase := Finished)];
    }

    method GuardedApplyBegin(content: string, now: string) returns (r: Result<Option<string>>)
      requires apply == Idle
      modifies `file, `backups, `checkpoint, `apply
      ensures Abs() == ApplyBegin(old(Abs()), content, now)
      ensures r.Ok? <==> Writable(content)
      ensures r.Ok? ==> r.value == if old(file).Some? then Some(CheckpointName(now)) else None
    {
      var cp := CreateCheckpoint(now);
      var written := WriteConfig(content, true, now);
      match written {
        case Err(e) => return Err(e);
        case Ok(_) =>
          apply := Reloading;
          return Ok(cp);
      }
    }

    method GuardedApplyResume() returns (r: Result<()>)
      requires apply.Reloaded?
      modifies `task, `checkpoint, `timers, `apply
      ensures Abs() == ApplyResume(old(Abs()))
      ensures r.Ok? <==> old(apply) == Reloaded(true)
    {
      var ok := apply.ok;
      if ok {
        StartGuardedTimer();
      }
      apply := Idle;
      return if ok then Ok(()) else Err(ReloadFailed);
    }

    method ConfirmApply() returns (r: Result<()>)
      modifies `task, `checkpoint, `timers
      ensures Abs() == Confirm(old(Abs()))
      ensures r == if Pending(old(Abs())) then Ok(()) else Err(NothingPending)
    {
      var pending, _ := GuardedApplyStatus();
      if !pending {
        return Err(NothingPending);
      }
      CancelGuardedTimer();
      return Ok(());
    }
  }
}
