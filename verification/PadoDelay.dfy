/** PADO delay: `pado-delay` and `pado-delay-sessions` in the `[pppoe]` section. */
module PadoDelay {
  import opened Text
  import opened Patterns
  import opened Sections
  import opened KeyLines
  import opened ConfigManager
  import opened ConfigEdit

  datatype Delay = Delay(delay: nat, minSessions: nat)

  const DELAY := "pado-delay"
  const SESSIONS := "pado-delay-sessions"

  function ReadDelay(lines: seq<string>): Delay {
    Delay(NumberIn(Body(lines, {PPPOE}, false), DELAY, 0), NumberIn(Body(lines, {PPPOE}, false), SESSIONS, 0))
  }

  /** A zero threshold deletes the sessions line. */
  function DelayUpdates(delay: nat, minSessions: nat): seq<Update> {
    [Update(DELAY, Some(Decimal(delay))),
     Update(SESSIONS, if minSessions > 0 then Some(Decimal(minSessions)) else None)]
  }

  function DelayEditor(delay: nat, minSessions: nat): Editor {
    KeyEditor(DelayUpdates(delay, minSessions), true)
  }

  lemma DelayKeys()
    ensures KeyName(DELAY) && KeyName(SESSIONS) && DELAY != SESSIONS
    ensures DELAY + "=" == "pado-delay=" && SESSIONS + "=" == "pado-delay-sessions="
  {
  }

  /** Reads the delay settings. */
  method GetPadoDelay(cm: Manager) returns (r: Result<Delay>)
    ensures r == if cm.file.Some? then Ok(ReadDelay(SplitLines(cm.file.value))) else Err(NotFound)
  {
    if cm.file.None? {
      return Err(NotFound);
    }
    hide IsHeader, Strip, Body, MatchNumber, NumberIn;
    DelayKeys();
    var lines := SplitLines(cm.file.value);
    var inPppoe, delay, minSessions := false, 0, 0;
    assert lines[0..] == lines;
    for i := 0 to |lines|
      invariant NumberIn(Body(lines[i..], {PPPOE}, inPppoe), DELAY, delay)
                == NumberIn(Body(lines, {PPPOE}, false), DELAY, 0)
      invariant NumberIn(Body(lines[i..], {PPPOE}, inPppoe), SESSIONS, minSessions)
                == NumberIn(Body(lines, {PPPOE}, false), SESSIONS, 0)
    {
      var raw := lines[i];
      var line := Strip(raw);
      NumberStep(lines, i, {PPPOE}, inPppoe, DELAY, delay);
      NumberStep(lines, i, {PPPOE}, inPppoe, SESSIONS, minSessions);
      if IsHeader(raw) {
        inPppoe := Lower(line) == "[pppoe]";
      } else if inPppoe {
        var m := MatchNumber(line, DELAY);
        if m.Some? {
          delay := m.value;
        }
        m := MatchNumber(line, SESSIONS);
        if m.Some? {
          minSessions := m.value;
        }
      }
    }
    NothingLeft(lines, {PPPOE}, inPppoe);
    return Ok(Delay(delay, minSessions));
  }

  function Flags(delaySet: bool, sessionsSet: bool): set<Pattern> {
    (if delaySet then {Key(DELAY)} else {}) + (if sessionsSet then {Key(SESSIONS)} else {})
  }

  function DelayLine(delay: nat, set_: bool): seq<string> {
    if set_ then [] else ["pado-delay=" + Decimal(delay)]
  }

  function SessionsLine(minSessions: nat, set_: bool): seq<string> {
    if set_ || minSessions == 0 then [] else ["pado-delay-sessions=" + Decimal(minSessions)]
  }

  lemma DelaySlotList(delay: nat, minSessions: nat)
    ensures DelayEditor(delay, minSessions).slots ==
            [Slot(Key(DELAY), DelayLine(delay, false), false), Slot(Key(SESSIONS), SessionsLine(minSessions, false), false)]
  {
    hide Decimal;
    DelayKeys();
    var us := DelayUpdates(delay, minSessions);
    assert SlotsOf(us)[0] == SlotOf(us[0]) && SlotsOf(us)[1] == SlotOf(us[1]);
  }

  lemma DelaySlots(delay: nat, minSessions: nat, line: string, delaySet: bool, sessionsSet: bool)
    requires Trimmed(line)
    ensures var slots := DelayEditor(delay, minSessions).slots;
            && |slots| == 2
            && slots[0] == Slot(Key(DELAY), DelayLine(delay, false), false)
            && slots[1] == Slot(Key(SESSIONS), SessionsLine(minSessions, false), false)
            && SlotFor(slots, line) == (
                 if MatchKey(line, DELAY).Some? then Some(slots[0])
                 else if MatchKey(line, SESSIONS).Some? then Some(slots[1])
                 else None)
            && Missing(slots, Flags(delaySet, sessionsSet)) ==
               DelayLine(delay, delaySet) + SessionsLine(minSessions, sessionsSet)
  {
    hide MatchKey, HasKey, Decimal, DelayEditor;
    DelayKeys();
    DelaySlotList(delay, minSessions);
    MatchKeyIffHasKey(line, DELAY);
    MatchKeyIffHasKey(line, SESSIONS);
    var first, second := Slot(Key(DELAY), DelayLine(delay, false), false), Slot(Key(SESSIONS), SessionsLine(minSessions, false), false);
    assert [first, second][1..] == [second] && [second][1..] == [];
    assert Missing([second], Flags(delaySet, sessionsSet)) == SessionsLine(minSessions, sessionsSet) + [];
    assert SlotFor([second], line) == if MatchKey(line, SESSIONS).Some? then Some(second) else None;
  }

  /** What the editor writes for one line, and the flags it leaves. */
  lemma DelayPass(
      delay: nat, minSessions: nat, raw: string, inside: bool, delaySet: bool, sessionsSet: bool)
    ensures var line := Strip(raw);
            var first := inside && MatchKey(line, DELAY).Some?;
            var second := inside && MatchKey(line, SESSIONS).Some?;
            var e, done := DelayEditor(delay, minSessions), Flags(delaySet, sessionsSet);
            && Emit(e, raw, inside, done) == (
                 if IsHeader(raw) then
                   (if inside then DelayLine(delay, delaySet) + SessionsLine(minSessions, sessionsSet) else []) + [raw]
                 else if first then DelayLine(delay, false)
                 else if second then SessionsLine(minSessions, false)
                 else [raw])
            && Mark(e, raw, inside, done) == (
                 if IsHeader(raw) then Flags(false, false)
                 else if first then Flags(true, sessionsSet)
                 else if second then Flags(delaySet, true)
                 else done)
  {
    hide IsHeader, Strip, MatchKey, Decimal, SlotFor, Missing;
    DelaySlots(delay, minSessions, Strip(raw), delaySet, sessionsSet);
    assert [] + [raw] == [raw];
  }

  /** Injects what the section lacks. */
  method InjectDelay(out: seq<string>, delay: nat, minSessions: nat, delaySet: bool, sessionsSet: bool)
    returns (out': seq<string>)
    ensures out' == out + (DelayLine(delay, delaySet) + SessionsLine(minSessions, sessionsSet))
  {
    hide Decimal;
    out' := out;
    if !delaySet {
      out' := out' + ["pado-delay=" + Decimal(delay)];
    }
    if !sessionsSet && minSessions > 0 {
      out' := out' + ["pado-delay-sessions=" + Decimal(minSessions)];
    }
  }

  /** The scan of `set_pado_delay`. */
  method EditDelay(lines: seq<string>, delay: nat, minSessions: nat) returns (out: seq<string>)
    ensures out == Edit(DelayEditor(delay, minSessions), lines)
  {
    hide IsHeader, Strip, MatchKey, Edited, Emit, Mark, Missing, Decimal, Flags;
    ghost var e := DelayEditor(delay, minSessions);
    out := [];
    var inPppoe, delaySet, sessionsSet := false, false, false;
    EditStart(e, lines);
    NoFlags();
    for i := 0 to |lines|
      invariant out + Edited(e, lines[i..], inPppoe, Flags(delaySet, sessionsSet)) == Edit(e, lines)
    {
      var raw := lines[i];
      var line := Strip(raw);
      EditedPass(e, lines, i, inPppoe, Flags(delaySet, sessionsSet), out);
      DelayPass(delay, minSessions, raw, inPppoe, delaySet, sessionsSet);
      if IsHeader(raw) {
        ghost var before := out;
        if inPppoe {
          out := InjectDelay(out, delay, minSessions, delaySet, sessionsSet);
        }
        out := out + [raw];
        assert out == before + Emit(e, raw, inPppoe, Flags(delaySet, sessionsSet));
        inPppoe := Lower(line) == "[pppoe]";
        delaySet := false;
        sessionsSet := false;
      } else if inPppoe && MatchKey(line, DELAY).Some? {
        out := out + ["pado-delay=" + Decimal(delay)];
        delaySet := true;
      } else if inPppoe && MatchKey(line, SESSIONS).Some? {
        assert out + [] == out;
        if minSessions > 0 {
          out := out + ["pado-delay-sessions=" + Decimal(minSessions)];
        }
        sessionsSet := true;
      } else {
        out := out + [raw];
      }
    }
    EditedEnd(e, lines, inPppoe, Flags(delaySet, sessionsSet));
    DelaySlots(delay, minSessions, "", delaySet, sessionsSet);
    if inPppoe {
      out := InjectDelay(out, delay, minSessions, delaySet, sessionsSet);
    } else {
      assert out + [] == out;
    }
  }

  lemma NoFlags()
    ensures Flags(false, false) == {}
  {
  }

  /** Sets the delay in every `[pppoe]` section of the file; a negative delay is refused. */
  method SetPadoDelay(cm: Manager, delay: int, minSessions: nat, now: string) returns (r: Result<()>)
    modifies cm`file, cm`backups
    ensures delay < 0 ==> cm.Abs() == old(cm.Abs()) && r == Err(BadArgument)
    ensures delay >= 0 ==>
              && cm.Abs() == EditFile(DelayEditor(delay, minSessions), old(cm.Abs()), now)
              && r == EditResult(DelayEditor(delay, minSessions), old(cm.Abs()))
  {
    if delay < 0 {
      return Err(BadArgument);
    }
    if cm.file.None? {
      return Err(NotFound);
    }
    var out := EditDelay(SplitLines(cm.file.value), delay, minSessions);
    var written := cm.WriteConfig(Unlines(out), true, now);
    return if written.Ok? then Ok(()) else Err(written.error);
  }
}
