/** The guarded-apply protocol as the code runs it, over every interleaving of applies,
    confirmations, playbook checkpoints, timer expiries, other configuration writes and other
    reloads or restarts of the daemon. */
module GuardedApply {
  import opened Text
  import opened ConfigManager

  datatype Step =
    | Begin(content: string, now: string)
    | Reload(ok: bool)
    | Resume
    | Confirmation
    | PlaybookCheckpoint(now: string)
    | Expiry(timer: nat)
    | RestoreReloaded(timer: nat, ok: bool)
    | PlainWrite(content: string, backup: bool, now: string)
    | Rollback(name: string, now: string)
    | PlainReload(ok: bool)

  function Next(s: State, step: Step): State {
    match step
    case Begin(content, now) => ApplyBegin(s, content, now)
    case Reload(ok) => ApplyReload(s, ok)
    case Resume => ApplyResume(s)
    case Confirmation => Confirm(s)
    case PlaybookCheckpoint(now) => Checkpoint(s, now)
    case Expiry(t) => Wake(s, t)
    case RestoreReloaded(t, ok) => RestoreReload(s, t, ok)
    case PlainWrite(content, backup, now) => Write(s, content, backup, now)
    case Rollback(name, now) => RollBack(s, name, now)
    case PlainReload(ok) => s.(daemon := if ok then s.file else s.daemon)
  }

  function Run(s: State, steps: seq<Step>): State
    decreases |steps|
  {
    if steps == [] then s else Run(Next(s, steps[0]), steps[1..])
  }

  /** No timer yet, nothing in flight. */
  predicate Initial(s: State) {
    s.task.None? && s.checkpoint.None? && s.timers == [] && s.apply == Idle
  }

  // ---------------------------------------------------------------------------
  // History: what the latest checkpoint copied
  // ---------------------------------------------------------------------------

  /** A step that reaches `create_checkpoint`. */
  predicate Checkpoints(s: State, step: Step) {
    s.file.Some? && (step.PlaybookCheckpoint? || (step.Begin? && s.apply == Idle))
  }

  /** A step that reaches `cancel_guarded_timer`: a timer starts or an apply is confirmed. */
  predicate Cancels(s: State, step: Step) {
    (step.Resume? && s.apply == Reloaded(true)) || (step.Confirmation? && Pending(s))
  }

  /** The file's content at the latest checkpoint since the last timer start or
      confirmation, told from the steps alone. */
  function Latest(s: State, steps: seq<Step>, latest: Option<string>): Option<string>
    decreases |steps|
  {
    if steps == [] then latest else Latest(Next(s, steps[0]), steps[1..], LatestAfter(s, steps[0], latest))
  }

  function LatestAfter(s: State, step: Step, latest: Option<string>): Option<string> {
    if Checkpoints(s, step) then Some(s.file.value)
    else if Cancels(s, step) then None
    else latest
  }

  predicate CanStillWrite(s: State, t: nat) {
    InPhase(s, t, Sleeping) && !s.timers[t].cancelled
  }

  /** The global checkpoint path names a copy of what the latest checkpoint saw. */
  ghost predicate CheckpointInv(s: State, latest: Option<string>) {
    && (s.checkpoint.Some? <==> latest.Some?)
    && (s.checkpoint.Some? ==>
          && s.checkpoint.value in s.backups
          && s.backups[s.checkpoint.value] == latest.value
          && exists now :: s.checkpoint.value == CheckpointName(now))
  }

  /** Only the registered task can still write. */
  ghost predicate TaskInv(s: State) {
    && (s.task.Some? ==> s.task.value < |s.timers|)
    && (forall t: nat :: CanStillWrite(s, t) ==> s.task == Some(t))
  }

  lemma BackupNamesDiffer(a: string, b: string)
    ensures BakName(a) != CheckpointName(b)
  {
    assert BakName(a)[|BakName(a)| - 1] == 'k' && CheckpointName(b)[|CheckpointName(b)| - 1] == 't';
  }

  /** Backups made by writes do not touch the checkpoint. */
  lemma WriteKeepsCheckpoint(s: State, content: string, backup: bool, now: string, latest: Option<string>)
    requires CheckpointInv(s, latest)
    ensures CheckpointInv(Write(s, content, backup, now), latest)
  {
    hide CheckpointName, BakName, Refusal;
    if s.checkpoint.Some? {
      var at :| s.checkpoint.value == CheckpointName(at);
      BackupNamesDiffer(now, at);
    }
  }

  lemma CheckpointInvStep(s: State, latest: Option<string>, step: Step)
    requires CheckpointInv(s, latest)
    ensures CheckpointInv(Next(s, step), LatestAfter(s, step, latest))
  {
    hide CheckpointName, BakName, Refusal, Write;
    match step
    case Begin(content, now) =>
      if s.apply == Idle {
        var c := Checkpoint(s, now);
        WriteKeepsCheckpoint(c, content, true, now, LatestAfter(s, step, latest));
      }
    case PlainWrite(content, backup, now) => WriteKeepsCheckpoint(s, content, backup, now, latest);
    case Rollback(name, now) =>
      if KnownBackup(s, name) {
        WriteKeepsCheckpoint(s, s.backups[name], true, now, latest);
      }
    case _ =>
  }

  lemma TaskInvStep(s: State, step: Step)
    requires TaskInv(s)
    ensures TaskInv(Next(s, step))
  {
    hide CheckpointName, BakName, Refusal;
    var s' := Next(s, step);
    forall t: nat | CanStillWrite(s', t)
      ensures s'.task == Some(t)
    {
      assert t < |s.timers| ==> CanStillWrite(s, t);
    }
  }

  lemma {:induction false} InvRun(s: State, steps: seq<Step>, latest: Option<string>)
    requires CheckpointInv(s, latest) && TaskInv(s)
    ensures CheckpointInv(Run(s, steps), Latest(s, steps, latest)) && TaskInv(Run(s, steps))
    decreases |steps|
  {
    hide Next, CheckpointInv, TaskInv, LatestAfter;
    if steps != [] {
      CheckpointInvStep(s, latest, steps[0]);
      TaskInvStep(s, steps[0]);
      InvRun(Next(s, steps[0]), steps[1..], LatestAfter(s, steps[0], latest));
    }
  }

  /** After every run: at most one rollback task can still write, and it is the registered
      one; an expiry writes exactly what the latest checkpoint since the last timer start
      or confirmation copied, or nothing. */
  lemma ExpiryRestoresLatestCheckpoint(s: State, steps: seq<Step>, t: nat)
    requires Initial(s)
    ensures var now, latest := Run(s, steps), Latest(s, steps, None);
            && (CanStillWrite(now, t) ==> now.task == Some(t))
            && Next(now, Expiry(t)).file == if CanStillWrite(now, t) && latest.Some? then latest else now.file
  {
    InvRun(s, steps, None);
  }

  // ---------------------------------------------------------------------------
  // A cancelled task never writes
  // ---------------------------------------------------------------------------

  predicate CancelledTimer(s: State, t: nat) {
    t < |s.timers| && s.timers[t].cancelled
  }

  lemma CancelledStays(s: State, step: Step, t: nat)
    requires CancelledTimer(s, t)
    ensures CancelledTimer(Next(s, step), t)
  {
  }

  lemma {:induction false} CancelledForGood(s: State, steps: seq<Step>, t: nat)
    requires CancelledTimer(s, t)
    ensures CancelledTimer(Run(s, steps), t)
    decreases |steps|
  {
    hide Next, CancelledTimer;
    if steps != [] {
      CancelledStays(s, steps[0], t);
      CancelledForGood(Next(s, steps[0]), steps[1..], t);
    }
  }

  /** Whatever happens after a confirmation, the task it cancelled never writes. */
  lemma ConfirmedTaskNeverWrites(s: State, steps: seq<Step>)
    requires Pending(s)
    ensures var now := Run(Next(s, Confirmation), steps);
            Next(now, Expiry(s.task.value)).file == now.file
  {
    CancelledForGood(Next(s, Confirmation), steps, s.task.value);
  }

  // ---------------------------------------------------------------------------
  // A lone apply is never reverted
  // ---------------------------------------------------------------------------

  /** Steps other than the requests that write the file. */
  predicate Quiet(step: Step) {
    !step.Begin? && !step.PlainWrite? && !step.Rollback?
  }

  /** The checkpoint, if there is one, copies what the file holds. */
  predicate CopiesFile(s: State) {
    s.checkpoint.Some? ==> s.checkpoint.value in s.backups && s.file == Some(s.backups[s.checkpoint.value])
  }

  lemma {:induction false} NothingToRestore(s: State, steps: seq<Step>)
    requires CopiesFile(s) && forall x :: x in steps ==> Quiet(x)
    ensures Run(s, steps).file == s.file && CopiesFile(Run(s, steps))
    decreases |steps|
  {
    hide CheckpointName, Refusal;
    if steps != [] {
      assert steps[0] in steps;
      NothingToRestore(Next(s, steps[0]), steps[1..]);
    }
  }

  /** Starting the timer forgets the checkpoint it was to restore: from any state in which
      an apply has reloaded, no expiry reverts it, whatever checkpoints the playbooks take,
      as long as no request writes the file. */
  lemma UndisturbedApplyIsKept(s: State, steps: seq<Step>)
    requires s.apply == Reloaded(true) && forall x :: x in steps ==> Quiet(x)
    ensures Run(Next(s, Resume), steps).file == s.file
  {
    NothingToRestore(Next(s, Resume), steps);
  }

  // ---------------------------------------------------------------------------
  // When an apply is in force
  // ---------------------------------------------------------------------------

  ghost predicate NobodyCanWrite(s: State) {
    forall t: nat :: !CanStillWrite(s, t)
  }

  predicate AllQuiet(steps: seq<Step>) {
    forall x :: x in steps ==> Quiet(x)
  }

  /** The applied content stands, and whoever may still restore restores just that. */
  ghost predicate Standing(s: State, content: string) {
    s.file == Some(content) && (NobodyCanWrite(s) || CopiesFile(s))
  }

  lemma StandingStep(s: State, step: Step, content: string)
    requires Standing(s, content) && Quiet(step)
    ensures Standing(Next(s, step), content)
    ensures s.daemon == s.file ==> Next(s, step).daemon == s.file
  {
    hide CheckpointName, Refusal;
    var s' := Next(s, step);
    assert step.Expiry? && NobodyCanWrite(s) ==> !CanStillWrite(s, step.timer);
    if NobodyCanWrite(s) && !(step.Resume? && s.apply == Reloaded(true)) {
      forall t: nat
        ensures !CanStillWrite(s', t)
      {
        assert !CanStillWrite(s, t);
      }
    }
  }

  lemma {:induction false} StandingRun(s: State, steps: seq<Step>, content: string)
    requires Standing(s, content) && AllQuiet(steps)
    ensures Standing(Run(s, steps), content)
    ensures s.daemon == s.file ==> Run(s, steps).daemon == s.file
    decreases |steps|
  {
    hide Next, Standing, Quiet;
    if steps != [] {
      assert steps[0] in steps;
      assert AllQuiet(steps[1..]) by {
        assert forall x :: x in steps[1..] ==> x in steps;
      }
      StandingStep(s, steps[0], content);
      StandingFile(s, content);
      StandingFile(Next(s, steps[0]), content);
      StandingRun(Next(s, steps[0]), steps[1..], content);
    }
  }

  lemma StandingFile(s: State, content: string)
    requires Standing(s, content)
    ensures s.file == Some(content)
  {
  }

  lemma BeginStands(s: State, content: string, now: string)
    requires s.apply == Idle && Writable(content) && (NobodyCanWrite(s) || s.file == Some(content))
    ensures Standing(Next(s, Begin(content, now)), content)
    ensures NobodyCanWrite(s) ==> NobodyCanWrite(Next(s, Begin(content, now)))
  {
    BackupNamesDiffer(now, now);
    hide CheckpointName, BakName, Refusal;
    var s' := Next(s, Begin(content, now));
    if NobodyCanWrite(s) {
      forall t: nat
        ensures !CanStillWrite(s', t)
      {
        assert !CanStillWrite(s, t);
      }
    }
  }

  /** A timer that is still pending when an apply takes the lock reverts it. */
  lemma OldTimerReverts(s: State, content: string, now: string, t: nat)
    requires s.apply == Idle && s.file.Some? && Writable(content) && CanStillWrite(s, t)
    ensures var applied := Next(s, Begin(content, now));
            Next(applied, Expiry(t)).file == s.file && Next(applied, Expiry(t)).apply == applied.apply == Reloading
  {
    BackupNamesDiffer(now, now);
    hide CheckpointName, BakName;
  }

  /** Whatever happens afterwards, as long as no request writes the file, an apply that
      changes the configuration stays on disk exactly if nobody can still write when it takes
      the lock: the guard is known before the apply, and later confirmations, timer starts
      and expiries do not matter. */
  lemma AppliedStaysIff(s: State, content: string, now: string)
    requires s.apply == Idle && s.file.Some? && s.file.value != content && Writable(content)
    ensures (forall steps :: AllQuiet(steps) ==> Run(Next(s, Begin(content, now)), steps).file == Some(content))
            <==> NobodyCanWrite(s)
  {
    hide Next, Standing;
    var applied := Next(s, Begin(content, now));
    if NobodyCanWrite(s) {
      BeginStands(s, content, now);
      forall steps | AllQuiet(steps)
        ensures Run(applied, steps).file == Some(content)
      {
        StandingRun(applied, steps, content);
        StandingFile(Run(applied, steps), content);
      }
    } else {
      var t: nat :| CanStillWrite(s, t);
      OldTimerReverts(s, content, now, t);
      RunOne(applied, Expiry(t));
      assert AllQuiet([Expiry(t)]);
    }
  }

  lemma RunOne(s: State, step: Step)
    ensures Run(s, [step]) == Next(s, step)
    ensures Run(s, []) == s
  {
    hide Next;
    assert [step][1..] == [];
  }

  /** Steps of everyone but the apply that holds the lock. */
  predicate Background(step: Step) {
    Quiet(step) && !step.Reload? && !step.Resume?
  }

  predicate AllBackground(steps: seq<Step>) {
    forall x :: x in steps ==> Background(x)
  }

  /** An apply up to the point where it waits for its confirmation, with anything of others
      in between. */
  function Applied(s: State, content: string, now: string, a: seq<Step>, b: seq<Step>, c: seq<Step>): State {
    Run(Next(Run(Next(Run(Next(s, Begin(content, now)), a), Reload(true)), b), Resume), c)
  }

  lemma {:induction false} LockKept(s: State, steps: seq<Step>)
    requires AllBackground(steps)
    ensures Run(s, steps).apply == s.apply && |Run(s, steps).timers| == |s.timers|
    decreases |steps|
  {
    hide CheckpointName, Refusal;
    if steps != [] {
      assert steps[0] in steps;
      assert AllBackground(steps[1..]) by {
        assert forall x :: x in steps[1..] ==> x in steps;
      }
      LockKept(Next(s, steps[0]), steps[1..]);
    }
  }

  lemma BackgroundIsQuiet(steps: seq<Step>)
    requires AllBackground(steps)
    ensures AllQuiet(steps)
  {
  }

  lemma ReloadStands(s: State, content: string)
    requires Standing(s, content) && s.apply == Reloading
    ensures var s' := Next(s, Reload(true)); Standing(s', content) && s'.daemon == s'.file
  {
    StandingStep(s, Reload(true), content);
  }

  lemma AppliedStands(s: State, content: string, now: string, a: seq<Step>, b: seq<Step>, c: seq<Step>)
    requires s.apply == Idle && Writable(content) && (NobodyCanWrite(s) || s.file == Some(content))
    requires AllBackground(a) && AllBackground(b) && AllBackground(c)
    ensures var end := Applied(s, content, now, a, b, c);
            Standing(end, content) && end.daemon == end.file == Some(content)
  {
    hide Standing, Next;
    var begun := Next(s, Begin(content, now));
    BeginStands(s, content, now);
    BeginLocks(s, content, now);
    BackgroundIsQuiet(a);
    StandingRun(begun, a, content);
    LockKept(begun, a);
    var reloaded := Next(Run(begun, a), Reload(true));
    ReloadStands(Run(begun, a), content);
    StandingFile(reloaded, content);
    BackgroundIsQuiet(b);
    StandingRun(reloaded, b, content);
    StandingFile(Run(reloaded, b), content);
    StandingStep(Run(reloaded, b), Resume, content);
    var waiting := Next(Run(reloaded, b), Resume);
    StandingFile(waiting, content);
    BackgroundIsQuiet(c);
    StandingRun(waiting, c, content);
    StandingFile(Run(waiting, c), content);
  }

  lemma BeginLocks(s: State, content: string, now: string)
    requires s.apply == Idle && Writable(content)
    ensures var begun := Next(s, Begin(content, now));
            && begun.apply == Reloading && begun.file == Some(content)
            && begun.timers == s.timers && begun.daemon == s.daemon
  {
    hide CheckpointName, BakName;
  }

  /** When nobody can still write at the lock, the content is in force whenever the timer
      expires, whatever others do in between: the promise of the expiry, that what was replaced
      is back, is kept in an interleaving exactly if the apply replaced the configuration by
      itself. */
  lemma ExpiryKeepsContent(
      s: State, content: string, now: string, a: seq<Step>, b: seq<Step>, c: seq<Step>, t: nat)
    requires s.apply == Idle && s.file.Some? && Writable(content) && (NobodyCanWrite(s) || s.file == Some(content))
    requires AllBackground(a) && AllBackground(b) && AllBackground(c)
    ensures var end := Next(Applied(s, content, now, a, b, c), Expiry(t));
            && end.file == end.daemon == Some(content)
            && (Kept(Promise(content, s.file, Expired), end.file, end.daemon) <==> s.file == Some(content))
  {
    hide Standing, Next, Applied;
    var waiting := Applied(s, content, now, a, b, c);
    AppliedStands(s, content, now, a, b, c);
    StandingStep(waiting, Expiry(t), content);
    StandingFile(Next(waiting, Expiry(t)), content);
  }

  /** In all interleavings without requests that write the file together: the promise of an
      expiry is kept exactly if the apply changed nothing. An apply that changes something breaks it at least when no other step
      comes in between; an older timer that restores within the window may keep it. */
  lemma ExpiryRevertsIff(s: State, content: string, now: string)
    requires s.apply == Idle && s.file.Some? && Writable(content)
    ensures (forall a, b, c, t: nat :: AllBackground(a) && AllBackground(b) && AllBackground(c) ==>
               var end := Next(Applied(s, content, now, a, b, c), Expiry(t));
               Kept(Promise(content, s.file, Expired), end.file, end.daemon))
            <==> s.file == Some(content)
  {
    hide Standing, Next, Applied, Kept;
    if s.file == Some(content) {
      forall a, b, c, t: nat | AllBackground(a) && AllBackground(b) && AllBackground(c)
        ensures var end := Next(Applied(s, content, now, a, b, c), Expiry(t));
                Kept(Promise(content, s.file, Expired), end.file, end.daemon)
      {
        ExpiryKeepsContent(s, content, now, a, b, c, t);
      }
    } else {
      LoneExpiry(s, content, now);
      assert AllBackground([]);
    }
  }

  lemma LoneExpiry(s: State, content: string, now: string)
    requires s.apply == Idle && s.file.Some? && Writable(content) && s.file != Some(content)
    ensures var end := Next(Applied(s, content, now, [], [], []), Expiry(|s.timers|));
            !Kept(Promise(content, s.file, Expired), end.file, end.daemon)
  {
    hide CheckpointName, Refusal, BakName;
    var reloaded := Next(Next(s, Begin(content, now)), Reload(true));
    RunOne(Next(s, Begin(content, now)), Confirmation);
    RunOne(reloaded, Confirmation);
    RunOne(Next(reloaded, Resume), Confirmation);
  }

  /** An older timer that restores within the window: the later expiry, like any other, finds
      the promise kept. */
  lemma OlderTimerKeepsPromise(s: State, content: string, now: string, t: nat, u: nat)
    requires s.apply == Idle && s.file.Some? && Writable(content) && CanStillWrite(s, t)
    ensures var end := Next(Applied(s, content, now, [Expiry(t)], [], []), Expiry(u));
            Kept(Promise(content, s.file, Expired), end.file, end.daemon)
  {
    hide Refusal, BakName, CheckpointName, Run;
    OldTimerReverts(s, content, now, t);
    var begun := Next(s, Begin(content, now));
    var reloaded := Next(Next(begun, Expiry(t)), Reload(true));
    RunOne(begun, Expiry(t));
    RunOne(reloaded, Expiry(t));
    RunOne(Next(reloaded, Resume), Expiry(t));
    assert reloaded.file == reloaded.daemon == s.file && reloaded.apply == Reloaded(true);
    assert Standing(Next(reloaded, Resume), s.file.value);
    StandingStep(Next(reloaded, Resume), Expiry(u), s.file.value);
  }

  /** An apply that changes the configuration is reverted by an expiry in some interleaving
      exactly if somebody could still write when it took the lock: never by its own timer. */
  lemma SomeExpiryRevertsIff(s: State, content: string, now: string)
    requires s.apply == Idle && s.file.Some? && Writable(content) && s.file != Some(content)
    ensures (exists a, b, c, t: nat :: AllBackground(a) && AllBackground(b) && AllBackground(c)
               && var end := Next(Applied(s, content, now, a, b, c), Expiry(t));
                  Kept(Promise(content, s.file, Expired), end.file, end.daemon))
            <==> !NobodyCanWrite(s)
  {
    hide Next, Applied, Kept;
    if NobodyCanWrite(s) {
      forall a, b, c, t: nat | AllBackground(a) && AllBackground(b) && AllBackground(c)
        ensures var end := Next(Applied(s, content, now, a, b, c), Expiry(t));
                !Kept(Promise(content, s.file, Expired), end.file, end.daemon)
      {
        ExpiryKeepsContent(s, content, now, a, b, c, t);
      }
    } else {
      var t: nat :| CanStillWrite(s, t);
      OlderTimerKeepsPromise(s, content, now, t, t);
      assert AllBackground([Expiry(t)]) && AllBackground([]);
    }
  }

  /** An apply that changes the configuration and is confirmed is in force afterwards, on disk
      and in the daemon, in every interleaving without requests that write the file, exactly if
      nobody could still write when it took the lock. */
  lemma ConfirmedInForceIff(s: State, content: string, now: string)
    requires s.apply == Idle && s.file.Some? && s.file.value != content && Writable(content)
    ensures (forall a, b, c, d :: AllBackground(a) && AllBackground(b) && AllBackground(c) && AllBackground(d)
                                  && Pending(Applied(s, content, now, a, b, c)) ==>
               var end := Run(Next(Applied(s, content, now, a, b, c), Confirmation), d);
               Kept(Promise(content, s.file, Confirmed), end.file, end.daemon))
            <==> NobodyCanWrite(s)
  {
    hide Next, Standing, Pending, Applied;
    if NobodyCanWrite(s) {
      forall a, b, c, d | AllBackground(a) && AllBackground(b) && AllBackground(c) && AllBackground(d)
        ensures var end := Run(Next(Applied(s, content, now, a, b, c), Confirmation), d);
                end.file == end.daemon == Some(content)
      {
        var waiting := Applied(s, content, now, a, b, c);
        AppliedStands(s, content, now, a, b, c);
        StandingStep(waiting, Confirmation, content);
        StandingFile(Next(waiting, Confirmation), content);
        BackgroundIsQuiet(d);
        StandingRun(Next(waiting, Confirmation), d, content);
        StandingFile(Run(Next(waiting, Confirmation), d), content);
      }
    } else {
      var t: nat :| CanStillWrite(s, t);
      RevertedAndConfirmed(s, content, now, t);
      assert AllBackground([Expiry(t)]) && AllBackground([]);
    }
  }

  lemma RevertedAndConfirmed(s: State, content: string, now: string, t: nat)
    requires s.apply == Idle && s.file.Some? && s.file.value != content && Writable(content) && CanStillWrite(s, t)
    ensures var waiting := Applied(s, content, now, [Expiry(t)], [], []);
            Pending(waiting) && Run(Next(waiting, Confirmation), []).file == s.file
  {
    hide CheckpointName, BakName;
    OldTimerReverts(s, content, now, t);
    RunOne(Next(s, Begin(content, now)), Expiry(t));
    var reverted := Next(Next(s, Begin(content, now)), Expiry(t));
    RunOne(Next(reverted, Reload(true)), Resume);
    RunOne(Next(Next(reverted, Reload(true)), Resume), Confirmation);
    RunOne(Next(Next(Next(reverted, Reload(true)), Resume), Confirmation), Confirmation);
  }

  // ---------------------------------------------------------------------------
  // What a confirmation leaves behind
  // ---------------------------------------------------------------------------

  /** Steps of rollback tasks. */
  predicate RollbackStep(step: Step) {
    step.Expiry? || step.RestoreReloaded?
  }

  predicate AllRollback(steps: seq<Step>) {
    forall x :: x in steps ==> RollbackStep(x)
  }

  predicate SomeoneRestoring(s: State) {
    exists t :: 0 <= t < |s.timers| && s.timers[t].phase == Restoring
  }

  lemma {:induction false} RollbacksWithoutWriters(s: State, steps: seq<Step>)
    requires NobodyCanWrite(s) && AllRollback(steps)
    ensures var end := Run(s, steps);
            end.file == s.file && (end.daemon == s.daemon || (end.daemon == s.file && SomeoneRestoring(s)))
    decreases |steps|
  {
    hide Refusal;
    if steps != [] {
      var s' := Next(s, steps[0]);
      assert steps[0] in steps;
      assert AllRollback(steps[1..]) by {
        assert forall x :: x in steps[1..] ==> x in steps;
      }
      forall t: nat
        ensures !CanStillWrite(s', t)
      {
        assert !CanStillWrite(s, t);
      }
      assert SomeoneRestoring(s') ==> SomeoneRestoring(s) by {
        if t :| 0 <= t < |s'.timers| && s'.timers[t].phase == Restoring {
          assert !CanStillWrite(s, t) && s.timers[t].phase == Restoring;
        }
      }
      assert steps[0].Expiry? ==> !CanStillWrite(s, steps[0].timer);
      if steps[0].RestoreReloaded? && InPhase(s, steps[0].timer, Restoring) {
        assert s.timers[steps[0].timer].phase == Restoring;
        assert SomeoneRestoring(s);
      }
      assert s'.file == s.file && (s'.daemon == s.daemon || (s'.daemon == s.file && SomeoneRestoring(s)));
      RollbacksWithoutWriters(s', steps[1..]);
    }
  }

  lemma ConfirmedNobodyWrites(s: State)
    requires TaskInv(s) && Pending(s)
    ensures NobodyCanWrite(Next(s, Confirmation))
    ensures Next(s, Confirmation).file == s.file && Next(s, Confirmation).daemon == s.daemon
    ensures SomeoneRestoring(Next(s, Confirmation)) <==> SomeoneRestoring(s)
  {
    var s' := Next(s, Confirmation);
    forall t: nat
      ensures !CanStillWrite(s', t)
    {
      assert CanStillWrite(s', t) ==> CanStillWrite(s, t);
    }
    if t :| 0 <= t < |s.timers| && s.timers[t].phase == Restoring {
      assert s'.timers[t].phase == Restoring;
    }
    if t :| 0 <= t < |s'.timers| && s'.timers[t].phase == Restoring {
      assert s.timers[t].phase == Restoring;
    }
  }

  /** In every run, from every state in which a confirmation is accepted: no rollback step
      writes the file any more, and none changes the daemon exactly if the daemon already
      holds the file or no task had restored the file before the confirmation. Otherwise the
      reload still under way puts the restored file into the daemon. */
  lemma ConfirmationInTimeIff(start: State, before: seq<Step>)
    requires Initial(start) && Pending(Run(start, before))
    ensures var s := Run(start, before);
            (forall steps :: AllRollback(steps) ==> Run(Next(s, Confirmation), steps).file == s.file)
            && ((forall steps :: AllRollback(steps) ==> Run(Next(s, Confirmation), steps).daemon == s.daemon)
                <==> s.daemon == s.file || !SomeoneRestoring(s))
  {
    hide Next, SomeoneRestoring, Pending;
    var s := Run(start, before);
    InvRun(start, before, None);
    ConfirmedNobodyWrites(s);
    var s' := Next(s, Confirmation);
    forall steps | AllRollback(steps)
      ensures Run(s', steps).file == s.file
      ensures s.daemon == s.file || !SomeoneRestoring(s) ==> Run(s', steps).daemon == s.daemon
    {
      RollbacksWithoutWriters(s', steps);
    }
    if s.daemon != s.file && SomeoneRestoring(s) {
      var t := LateReload(s');
      RunOne(s', RestoreReloaded(t, true));
      assert AllRollback([RestoreReloaded(t, true)]);
    }
  }

  lemma LateReload(s: State) returns (t: nat)
    requires SomeoneRestoring(s)
    ensures Next(s, RestoreReloaded(t, true)).daemon == s.file
  {
    t :| 0 <= t < |s.timers| && s.timers[t].phase == Restoring;
  }

  /** The same for the registered task alone: confirmed while it sleeps it does nothing more;
      confirmed while it restores, its reload loads what it has restored. */
  lemma ConfirmedTask(s: State, steps: seq<Step>, ok: bool)
    requires Pending(s)
    ensures var t, s' := s.task.value, Next(s, Confirmation);
            if s.timers[t].phase == Sleeping then
              && Next(s', Expiry(t)).file == s.file && Next(s', Expiry(t)).daemon == s.daemon
              && Next(s', RestoreReloaded(t, ok)) == s'
            else
              && Next(s', Expiry(t)) == s'
              && Next(s', RestoreReloaded(t, ok)).file == s.file
              && Next(s', RestoreReloaded(t, ok)).daemon == if ok then s.file else s.daemon
  {
  }

  /** So an accepted confirmation puts the content in force, whatever the rollback tasks still
      do, exactly if file and daemon hold it at the confirmation. */
  lemma ConfirmationKeepsIff(start: State, before: seq<Step>, content: string, replaced: Option<string>)
    requires Initial(start) && Pending(Run(start, before))
    ensures var s := Run(start, before);
            (forall steps :: AllRollback(steps) ==>
               var end := Run(Next(s, Confirmation), steps);
               Kept(Promise(content, replaced, Confirmed), end.file, end.daemon))
            <==> s.file == s.daemon == Some(content)
  {
    hide Next, SomeoneRestoring, Pending;
    var s := Run(start, before);
    InvRun(start, before, None);
    ConfirmedNobodyWrites(s);
    var s' := Next(s, Confirmation);
    forall steps | AllRollback(steps)
      ensures Run(s', steps).file == s.file
      ensures Run(s', steps).daemon == s.daemon || Run(s', steps).daemon == s.file
    {
      RollbacksWithoutWriters(s', steps);
    }
    RunOne(s', Confirmation);
    assert AllRollback([]);
  }

  // ---------------------------------------------------------------------------
  // What a reload decides
  // ---------------------------------------------------------------------------

  /** An apply up to the release of its lock, with anything of others in between. */
  function Released(s: State, content: string, now: string, a: seq<Step>, ok: bool, b: seq<Step>): State {
    Next(Run(Next(Run(Next(s, Begin(content, now)), a), Reload(ok)), b), Resume)
  }

  /** In every interleaving the apply starts its timer exactly if its reload succeeded. */
  lemma TimerStartsIff(s: State, content: string, now: string, a: seq<Step>, ok: bool, b: seq<Step>)
    requires s.apply == Idle && Writable(content) && AllBackground(a) && AllBackground(b)
    ensures var end := Released(s, content, now, a, ok, b);
            end.apply == Idle && (CanStillWrite(end, |s.timers|) <==> ok)
  {
    hide Refusal, CheckpointName, BakName, Run;
    BeginLocks(s, content, now);
    LockKept(Next(s, Begin(content, now)), a);
    LockKept(Next(Run(Next(s, Begin(content, now)), a), Reload(ok)), b);
  }

  /** Nobody but the apply reloads the daemon. */
  predicate NoReload(steps: seq<Step>) {
    forall x :: x in steps ==> !x.PlainReload?
  }

  lemma CalmStep(s: State, step: Step)
    requires NobodyCanWrite(s) && !SomeoneRestoring(s) && Background(step) && !step.PlainReload?
    ensures var s' := Next(s, step);
            NobodyCanWrite(s') && !SomeoneRestoring(s') && s'.daemon == s.daemon && s'.file == s.file
  {
    hide Refusal, CheckpointName;
    var s' := Next(s, step);
    assert step.Expiry? ==> !CanStillWrite(s, step.timer);
    assert step.RestoreReloaded? ==> !InPhase(s, step.timer, Restoring);
    forall t: nat
      ensures !CanStillWrite(s', t)
      ensures !InPhase(s', t, Restoring)
    {
      assert !CanStillWrite(s, t) && !InPhase(s, t, Restoring);
    }
  }

  /** With no rollback task left, nobody else changes file or daemon. */
  lemma {:induction false} CalmRun(s: State, steps: seq<Step>)
    requires NobodyCanWrite(s) && !SomeoneRestoring(s) && AllBackground(steps) && NoReload(steps)
    ensures var end := Run(s, steps);
            NobodyCanWrite(end) && !SomeoneRestoring(end) && end.daemon == s.daemon && end.file == s.file
    decreases |steps|
  {
    hide Next, NobodyCanWrite, SomeoneRestoring, Background;
    if steps != [] {
      assert steps[0] in steps;
      assert AllBackground(steps[1..]) && NoReload(steps[1..]) by {
        assert forall x :: x in steps[1..] ==> x in steps;
      }
      CalmStep(s, steps[0]);
      CalmRun(Next(s, steps[0]), steps[1..]);
    }
  }

  /** Nobody disturbs an apply: no task can still write, and none can still load the file into
      a daemon that holds something else, unless the reload succeeds anyway. */
  ghost predicate Undisturbed(s: State, content: string, ok: bool) {
    NobodyCanWrite(s) && (ok || s.daemon == Some(content) || !SomeoneRestoring(s))
  }

  /** The content is on disk when the lock is released, and the daemon has it exactly if the
      reload succeeded or the daemon held it anyway. */
  predicate Decided(s: State, end: State, content: string, ok: bool) {
    end.file == Some(content) && (end.file == end.daemon <==> ok || s.daemon == Some(content))
  }

  lemma ReloadedStands(s: State, content: string, ok: bool, b: seq<Step>)
    requires Standing(s, content) && s.apply == Reloading && AllBackground(b)
    requires ok || s.daemon == s.file
    ensures var end := Next(Run(Next(s, Reload(ok)), b), Resume);
            end.file == end.daemon == Some(content)
  {
    hide Standing, Run;
    var reloaded := Next(s, Reload(ok));
    StandingStep(s, Reload(ok), content);
    StandingFile(s, content);
    StandingFile(reloaded, content);
    assert reloaded.daemon == reloaded.file;
    hide Next;
    BackgroundIsQuiet(b);
    StandingRun(reloaded, b, content);
    StandingFile(Run(reloaded, b), content);
    StandingStep(Run(reloaded, b), Resume, content);
    StandingFile(Next(Run(reloaded, b), Resume), content);
  }

  lemma FailedReload(s: State, b: seq<Step>)
    requires NobodyCanWrite(s) && !SomeoneRestoring(s) && s.apply == Reloading && AllBackground(b) && NoReload(b)
    ensures var end := Next(Run(Next(s, Reload(false)), b), Resume);
            end.file == s.file && end.daemon == s.daemon
  {
    hide Run, Refusal;
    var failed := Next(s, Reload(false));
    assert NobodyCanWrite(failed) by {
      assert forall t: nat :: CanStillWrite(failed, t) ==> CanStillWrite(s, t);
    }
    CalmRun(failed, b);
    LockKept(failed, b);
  }

  /** What the reload decides, whatever others do in between but reload the daemon. */
  lemma ReloadDecides(s: State, content: string, now: string, a: seq<Step>, ok: bool, b: seq<Step>)
    requires s.apply == Idle && Writable(content) && Undisturbed(s, content, ok)
    requires AllBackground(a) && AllBackground(b) && NoReload(a) && NoReload(b)
    ensures Decided(s, Released(s, content, now, a, ok, b), content, ok)
  {
    hide Next, Standing, SomeoneRestoring, NobodyCanWrite;
    var begun := Next(s, Begin(content, now));
    BeginStands(s, content, now);
    BeginLocks(s, content, now);
    BackgroundIsQuiet(a);
    StandingRun(begun, a, content);
    StandingFile(Run(begun, a), content);
    LockKept(begun, a);
    if ok || s.daemon == Some(content) {
      ReloadedStands(Run(begun, a), content, ok, b);
    } else {
      SameRestoring(s, begun);
      CalmRun(begun, a);
      FailedReload(Run(begun, a), b);
    }
  }

  lemma SameRestoring(s: State, s': State)
    requires s'.timers == s.timers
    ensures SomeoneRestoring(s') <==> SomeoneRestoring(s)
  {
  }

  /** For an apply that changes the file this holds in all interleavings exactly if nobody
      disturbs it. */
  lemma ReloadDecidesIff(s: State, content: string, now: string, ok: bool)
    requires s.apply == Idle && s.file.Some? && s.file.value != content && Writable(content)
    ensures (forall a, b :: AllBackground(a) && AllBackground(b) && NoReload(a) && NoReload(b) ==>
               Decided(s, Released(s, content, now, a, ok, b), content, ok))
            <==> Undisturbed(s, content, ok)
  {
    hide Next, SomeoneRestoring, NobodyCanWrite, Decided, Released;
    if Undisturbed(s, content, ok) {
      forall a, b | AllBackground(a) && AllBackground(b) && NoReload(a) && NoReload(b)
        ensures Decided(s, Released(s, content, now, a, ok, b), content, ok)
      {
        ReloadDecides(s, content, now, a, ok, b);
      }
    } else {
      var step := Disturbance(s, content, now, ok);
      assert AllBackground([step]) && NoReload([step]) && AllBackground([]) && NoReload([]);
    }
  }

  lemma Disturbance(s: State, content: string, now: string, ok: bool) returns (step: Step)
    requires s.apply == Idle && s.file.Some? && s.file.value != content && Writable(content)
    requires !Undisturbed(s, content, ok)
    ensures Background(step) && !step.PlainReload?
    ensures !Decided(s, Released(s, content, now, [step], ok, []), content, ok)
  {
    hide Refusal, CheckpointName, BakName;
    var begun := Next(s, Begin(content, now));
    BeginLocks(s, content, now);
    if t: nat :| CanStillWrite(s, t) {
      step := Expiry(t);
      OldTimerReverts(s, content, now, t);
    } else {
      var t :| 0 <= t < |s.timers| && s.timers[t].phase == Restoring;
      step := RestoreReloaded(t, true);
    }
    RunOne(begun, step);
    RunOne(Next(Next(begun, step), Reload(ok)), Resume);
  }

  /** After a failed reload an older timer that is still pending restores what the apply
      replaced, through the checkpoint the failed apply has left. */
  lemma OldTimerAfterFailure(s: State, content: string, now: string, t: nat)
    requires s.apply == Idle && Writable(content)
    ensures var end := Next(Next(Next(s, Begin(content, now)), Reload(false)), Resume);
            Next(end, Expiry(t)).file ==
            if !CanStillWrite(s, t) then Some(content)
            else if s.file.Some? then s.file
            else if s.checkpoint.Some? && s.checkpoint.value in s.backups then Some(s.backups[s.checkpoint.value])
            else Some(content)
  {
    BackupNamesDiffer(now, now);
    hide CheckpointName, BakName, Refusal;
  }

  // ---------------------------------------------------------------------------
  // Runs on which the documented behaviour fails
  // ---------------------------------------------------------------------------

  function Start(content: string): State {
    State(Some(content), map[], Some(content), None, None, [], Idle)
  }

  /** No confirmation within the deadline, yet the new configuration stays. */
  lemma ExpiryKeepsNewConfig(before: string, after: string, now: string)
    requires Writable(after) && before != after
    ensures var end := Run4(Start(before), Begin(after, now), Reload(true), Resume, Expiry(0));
            && !Pending(end) && end.file == end.daemon == Some(after)
            && !Kept(Promise(after, Some(before), Expired), end.file, end.daemon)
  {
  }

  function Run4(s: State, a: Step, b: Step, c: Step, d: Step): State {
    Next(Next(Next(Next(s, a), b), c), d)
  }

  /** A backup playbook during the window: the expiry restores, but the wrong content. */
  lemma PlaybookTakesOver(before: string, after: string, now: string, later: string)
    requires Writable(after) && before != after
    ensures var waiting := Next(Next(Next(Start(before), Begin(after, now)), Reload(true)), Resume);
            var end := Run4(waiting, PlaybookCheckpoint(later), Expiry(0), RestoreReloaded(0, true), Confirmation);
            && !Pending(end) && end.file == end.daemon == Some(after)
            && !Kept(Promise(after, Some(before), Expired), end.file, end.daemon)
  {
  }

  /** The old timer expires while the next apply reloads: that apply succeeds and is
      confirmed, but file and daemon hold the configuration it replaced. */
  lemma ConfirmedButReverted(
      first: string, second: string, third: string, now: string, later: string)
    requires Writable(second) && Writable(third) && second != third
    ensures var waiting := Next(Next(Next(Start(first), Begin(second, now)), Reload(true)), Resume);
            var raced := Run4(waiting, Begin(third, later), Expiry(0), Reload(true), Resume);
            && raced.apply == Idle && Pending(raced)
            && var end := Next(raced, Confirmation);
               && !Pending(end) && end.file == end.daemon == Some(second)
               && !Kept(Promise(third, Some(second), Confirmed), end.file, end.daemon)
  {
    hide Refusal, BakName, CheckpointName;
    var waiting := Next(Next(Next(Start(first), Begin(second, now)), Reload(true)), Resume);
    assert waiting.file == Some(second) && waiting.timers == [Timer(Sleeping, false)] && waiting.apply == Idle;
    OldTimerReverts(waiting, third, later, 0);
  }

  /** The playbook copies another configuration during the window; the expiry restores it,
      and the confirmation that arrives before its reload is accepted all the same. */
  lemma ConfirmedTooLate(
      first: string, second: string, third: string, now: string, later: string)
    requires Writable(second) && Writable(third) && second != third
    ensures var waiting := Next(Next(Next(Start(first), Begin(second, now)), Reload(true)), Resume);
            var expired := Run4(waiting, PlainWrite(third, false, later), PlaybookCheckpoint(later),
                                PlainWrite(second, false, later), Expiry(0));
            && Pending(expired)
            && var late := Next(expired, Confirmation);
               && !Pending(late) && late.file == Some(third) && late.daemon == Some(second)
               && Next(late, RestoreReloaded(0, true)).daemon == Some(third)
               && !Kept(Promise(second, Some(first), Confirmed), late.file, late.daemon)
  {
    hide Refusal, BakName, CheckpointName;
    var waiting := Next(Next(Next(Start(first), Begin(second, now)), Reload(true)), Resume);
    assert waiting.file == waiting.daemon == Some(second) && waiting.timers == [Timer(Sleeping, false)];
    var copied := Next(Next(waiting, PlainWrite(third, false, later)), PlaybookCheckpoint(later));
    assert copied.backups[CheckpointName(later)] == third;
  }

  /** A failed reload leaves the new configuration on disk with no timer at all. */
  lemma FailedReloadLeavesNoGuard(before: string, after: string, now: string)
    requires Writable(after) && before != after
    ensures var end := Next(Next(Next(Start(before), Begin(after, now)), Reload(false)), Resume);
            end.apply == Idle && !Pending(end) && end.timers == []
            && end.file == Some(after) && end.daemon == Some(before)
  {
  }
}
