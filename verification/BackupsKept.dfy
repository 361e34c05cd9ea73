/** What is left in the backup directory: every accepted write, guarded apply and rollback
    keeps the content it replaced under its own name, until a request with the same time
    stamp takes that name. */
module BackupsKept {
  import opened Text
  import Sections
  import opened ConfigManager
  import opened ConfigEdit
  import opened GuardedApply

  // ---------------------------------------------------------------------------
  // Names
  // ---------------------------------------------------------------------------

  lemma BetweenIsUnique(before: string, a: string, b: string, after: string)
    ensures before + a + after == before + b + after <==> a == b
  {
    var x, y := before + a + after, before + b + after;
    if x == y {
      assert |a| == |b|;
      assert x[|before|..|before| + |a|] == a && y[|before|..|before| + |b|] == b;
    }
  }

  /** Different times give different backups and different checkpoints, and a backup is never
      a checkpoint. */
  lemma NamesApart(a: string, b: string)
    ensures BakName(a) == BakName(b) <==> a == b
    ensures CheckpointName(a) == CheckpointName(b) <==> a == b
    ensures BakName(a) != CheckpointName(b)
  {
    BetweenIsUnique("accel-ppp.conf.", a, b, ".bak");
    BetweenIsUnique("accel-ppp.conf.", a, b, ".checkpoint");
    BackupNamesDiffer(a, b);
  }

  // ---------------------------------------------------------------------------
  // One request
  // ---------------------------------------------------------------------------

  /** The directory after the file's content, if there is a file, has been copied to a name. */
  function WithCopy(backups: map<string, string>, name: string, file: Option<string>): map<string, string> {
    if file.Some? then backups[name := file.value] else backups
  }

  /** A content with an opening bracket is written, after a copy if one is wanted; any other
      changes nothing at all. */
  lemma WriteMeaning(s: State, content: string, backup: bool, now: string)
    ensures Next(s, PlainWrite(content, backup, now)) ==
            if '[' !in content then s
            else
              s.(file := Some(content),
                 backups := if backup then WithCopy(s.backups, "accel-ppp.conf." + now + ".bak", s.file) else s.backups)
  {
    WritableIff(content);
  }

  /** A content is refused as empty if it is all blanks, and for want of a section if it has
      text but no opening bracket. */
  lemma RefusalMeaning(content: string)
    ensures Refusal(content) ==
            if '[' in content then None
            else if forall c :: c in content ==> IsSpace(c) then Some(EmptyContent)
            else Some(NoSectionHeader)
  {
    WritableIff(content);
    var from := FirstVisible(content, 0);
    if from < |content| {
      assert content[from] in content && !IsSpace(content[from]);
      assert AfterVisible(content, from, |content|) > from;
    }
  }

  /** Every edit of a service is such a write, with the standard backup. */
  lemma EditMeaning(e: Sections.Editor, s: State, now: string)
    ensures EditFile(e, s, now) ==
            if s.file.Some? then Next(s, PlainWrite(Sections.EditText(e, s.file.value), true, now)) else s
    ensures s.file.Some? && '[' in Sections.EditText(e, s.file.value) ==>
              EditFile(e, s, now) ==
              s.(file := Some(Sections.EditText(e, s.file.value)),
                 backups := s.backups["accel-ppp.conf." + now + ".bak" := s.file.value])
    ensures EditResult(e, s) ==
            if s.file.None? then Err(NotFound)
            else if '[' in Sections.EditText(e, s.file.value) then Ok(())
            else if forall c :: c in Sections.EditText(e, s.file.value) ==> IsSpace(c) then Err(EmptyContent)
            else Err(NoSectionHeader)
  {
    hide Refusal, Sections.EditText;
    if s.file.Some? {
      RefusalMeaning(Sections.EditText(e, s.file.value));
    }
  }

  /** An apply that gets the lock takes the checkpoint, whatever its content is; if the
      content is written, the standard backup is made too. */
  lemma BeginMeaning(s: State, content: string, now: string)
    requires s.apply == Idle
    ensures var s', checked := Next(s, Begin(content, now)), WithCopy(s.backups, "accel-ppp.conf." + now + ".checkpoint", s.file);
            && s'.checkpoint == (if s.file.Some? then Some("accel-ppp.conf." + now + ".checkpoint") else s.checkpoint)
            && s'.daemon == s.daemon && s'.task == s.task && s'.timers == s.timers
            && (if '[' in content then
                  s'.file == Some(content) && s'.apply == Reloading
                  && s'.backups == WithCopy(checked, "accel-ppp.conf." + now + ".bak", s.file)
                else s'.file == s.file && s'.apply == Idle && s'.backups == checked)
  {
    WritableIff(content);
  }

  /** With a file in place, an accepted apply leaves two copies of it and touches no other
      backup. */
  lemma BeginKeepsCopies(s: State, content: string, now: string)
    requires s.apply == Idle && s.file.Some? && '[' in content
    ensures var s' := Next(s, Begin(content, now));
            && BakName(now) in s'.backups && s'.backups[BakName(now)] == s.file.value
            && CheckpointName(now) in s'.backups && s'.backups[CheckpointName(now)] == s.file.value
            && forall name :: name != BakName(now) && name != CheckpointName(now) ==>
                 (name in s'.backups <==> name in s.backups)
                 && (name in s.backups ==> s'.backups[name] == s.backups[name])
  {
    BeginMeaning(s, content, now);
    NamesApart(now, now);
  }

  /** A rollback to a flat name that exists and holds an opening bracket restores it, after a
      copy of the file, if there is one; any other changes nothing. */
  lemma RollbackMeaning(s: State, name: string, now: string)
    ensures Next(s, Rollback(name, now)) ==
            if name in {"", ".", ".."} || '/' in name || '\\' in name || name !in s.backups || '[' !in s.backups[name] then s
            else
              s.(file := Some(s.backups[name]),
                 backups := WithCopy(s.backups, "accel-ppp.conf." + now + ".bak", s.file))
  {
    if name in s.backups {
      WritableIff(s.backups[name]);
    }
  }

  /** The daemon changes only by loading the file: after the reload of an apply, after the one
      of a rollback task that has restored the file, or on any other reload that succeeds. */
  lemma DaemonMeaning(s: State, step: Step)
    ensures var loads := match step
                         case Reload(ok) => ok && s.apply == Reloading
                         case RestoreReloaded(t, ok) => ok && t < |s.timers| && s.timers[t].phase == Restoring
                         case PlainReload(ok) => ok
                         case _ => false;
            Next(s, step).daemon == if loads then s.file else s.daemon
  {
    hide Refusal;
  }

  // ---------------------------------------------------------------------------
  // Runs
  // ---------------------------------------------------------------------------

  /** The time stamp under which a step would copy the file. */
  function Stamp(step: Step): Option<string> {
    match step
    case Begin(_, now) => Some(now)
    case PlainWrite(_, true, now) => Some(now)
    case Rollback(_, now) => Some(now)
    case _ => None
  }

  /** A step by which a request replaces the file, with a copy. */
  predicate Replaces(s: State, step: Step) {
    && s.file.Some?
    && match step
       case Begin(content, _) => s.apply == Idle && '[' in content
       case PlainWrite(content, backup, _) => backup && '[' in content
       case Rollback(name, _) =>
         name !in {"", ".", ".."} && '/' !in name && '\\' !in name && name in s.backups && '[' in s.backups[name]
       case _ => false
  }

  lemma ReplacedIsCopied(s: State, step: Step)
    requires Replaces(s, step)
    ensures Stamp(step).Some?
    ensures var s' := Next(s, step);
            BakName(Stamp(step).value) in s'.backups && s'.backups[BakName(Stamp(step).value)] == s.file.value
  {
    hide Next;
    match step
    case Begin(content, now) => BeginKeepsCopies(s, content, now);
    case PlainWrite(content, backup, now) => WriteMeaning(s, content, backup, now);
    case Rollback(name, now) => RollbackMeaning(s, name, now);
  }

  /** Nothing else changes an existing file, but a write that wants no copy and the expiry of
      a rollback task. */
  lemma OnlyTheseReplace(s: State, step: Step)
    requires s.file.Some? && Next(s, step).file != s.file
    ensures Replaces(s, step) || (step.PlainWrite? && !step.backup) || step.Expiry?
  {
    match step
    case Begin(content, now) => WritableIff(content);
    case PlainWrite(content, backup, now) => WritableIff(content);
    case Rollback(name, now) =>
      if KnownBackup(s, name) {
        WritableIff(s.backups[name]);
      }
    case _ =>
  }

  lemma CopyStaysStep(s: State, step: Step, now: string)
    requires BakName(now) in s.backups && Stamp(step) != Some(now)
    ensures BakName(now) in Next(s, step).backups && Next(s, step).backups[BakName(now)] == s.backups[BakName(now)]
  {
    hide BakName, CheckpointName, Refusal;
    match step
    case Begin(_, at) => NamesApart(now, at);
    case PlaybookCheckpoint(at) => NamesApart(now, at);
    case PlainWrite(_, _, at) => NamesApart(now, at);
    case Rollback(_, at) => NamesApart(now, at);
    case _ =>
  }

  lemma {:induction false} CopyStays(s: State, steps: seq<Step>, now: string)
    requires BakName(now) in s.backups && forall x :: x in steps ==> Stamp(x) != Some(now)
    ensures BakName(now) in Run(s, steps).backups && Run(s, steps).backups[BakName(now)] == s.backups[BakName(now)]
    decreases |steps|
  {
    hide Next, BakName;
    if steps != [] {
      assert steps[0] in steps && forall x :: x in steps[1..] ==> x in steps;
      CopyStaysStep(s, steps[0], now);
      CopyStays(Next(s, steps[0]), steps[1..], now);
    }
  }

  /** Whatever a write, an apply or a rollback has replaced stays under its own backup name
      through every run without another request of the same time; and at the end of that run
      a rollback to the name restores it exactly if it has an opening bracket. */
  lemma ReplacedIsKept(s: State, step: Step, steps: seq<Step>, later: string)
    requires Replaces(s, step) && forall x :: x in steps ==> Stamp(x) != Stamp(step)
    ensures var end, name := Run(Next(s, step), steps), BakName(Stamp(step).value);
            && name in end.backups && end.backups[name] == s.file.value
            && ('/' !in Stamp(step).value && '\\' !in Stamp(step).value ==>
                  Next(end, Rollback(name, later)).file == if '[' in s.file.value then s.file else end.file)
  {
    hide Next, Run;
    var now := Stamp(step).value;
    ReplacedIsCopied(s, step);
    CopyStays(Next(s, step), steps, now);
    RollbackMeaning(Run(Next(s, step), steps), BakName(now), later);
    if '/' !in now && '\\' !in now {
      BakNameIsFlat(now);
    }
  }
}
