/** Session limits: reading and setting `max-sessions` and `max-starting`, and the PADI
    limit of one interface. */
module ConnectionLimits {
  import opened Text
  import opened Patterns
  import opened Sections
  import opened KeyLines
  import opened ConfigManager
  import opened ConfigEdit

  datatype Limits = Limits(maxSessions: nat, maxStarting: nat, sessionTimeout: nat)

  const GENERAL := {"[common]", "[general]"}

  function ReadLimits(lines: seq<string>): Limits {
    Limits(
      NumberIn(Body(lines, {PPPOE}, false), "max-sessions", 0),
      NumberIn(Body(lines, {PPPOE}, false), "max-starting", 0),
      NumberIn(Body(lines, GENERAL, false), "session-timeout", 0))
  }

  function Written(value: Option<nat>): Option<string> {
    if value.Some? then Some(Decimal(value.value)) else None
  }

  function LimitUpdates(maxSessions: Option<nat>, maxStarting: Option<nat>): seq<Update> {
    Optional("max-sessions", Written(maxSessions)) + Optional("max-starting", Written(maxStarting))
  }

  function LimitsEditor(maxSessions: Option<nat>, maxStarting: Option<nat>): Editor {
    KeyEditor(LimitUpdates(maxSessions, maxStarting), true)
  }

  /** Reads the global limits. */
  method GetLimits(cm: Manager) returns (r: Result<Limits>)
    ensures r == if cm.file.Some? then Ok(ReadLimits(SplitLines(cm.file.value))) else Err(NotFound)
  {
    if cm.file.None? {
      return Err(NotFound);
    }
    hide IsHeader, Strip, Body, MatchNumber, NumberIn;
    LimitKeys();
    var lines := SplitLines(cm.file.value);
    var result := Limits(0, 0, 0);
    var inPppoe, inGeneral := false, false;
    assert lines[0..] == lines;
    for i := 0 to |lines|
      invariant NumberIn(Body(lines[i..], {PPPOE}, inPppoe), "max-sessions", result.maxSessions)
                == NumberIn(Body(lines, {PPPOE}, false), "max-sessions", 0)
      invariant NumberIn(Body(lines[i..], {PPPOE}, inPppoe), "max-starting", result.maxStarting)
                == NumberIn(Body(lines, {PPPOE}, false), "max-starting", 0)
      invariant NumberIn(Body(lines[i..], GENERAL, inGeneral), "session-timeout", result.sessionTimeout)
                == NumberIn(Body(lines, GENERAL, false), "session-timeout", 0)
    {
      var raw := lines[i];
      var line := Strip(raw);
      NumberStep(lines, i, {PPPOE}, inPppoe, "max-sessions", result.maxSessions);
      NumberStep(lines, i, {PPPOE}, inPppoe, "max-starting", result.maxStarting);
      NumberStep(lines, i, GENERAL, inGeneral, "session-timeout", result.sessionTimeout);
      if IsHeader(raw) {
        inPppoe := Lower(line) == "[pppoe]";
        inGeneral := Lower(line) == "[common]" || Lower(line) == "[general]";
      } else {
        if inPppoe {
          var m := MatchNumber(line, "max-sessions");
          if m.Some? {
            result := result.(maxSessions := m.value);
          }
          m := MatchNumber(line, "max-starting");
          if m.Some? {
            result := result.(maxStarting := m.value);
          }
        }
        if inGeneral {
          var m := MatchNumber(line, "session-timeout");
          if m.Some? {
            result := result.(sessionTimeout := m.value);
          }
        }
      }
    }
    NothingLeft(lines, {PPPOE}, inPppoe);
    NothingLeft(lines, GENERAL, inGeneral);
    return Ok(result);
  }

  function Flags(msSet: bool, mstSet: bool): set<Pattern> {
    (if msSet then {Key("max-sessions")} else {}) + (if mstSet then {Key("max-starting")} else {})
  }

  function LimitLine(key: string, value: Option<nat>, set_: bool): seq<string> {
    if value.Some? && !set_ then [key + "=" + Decimal(value.value)] else []
  }

  lemma LimitsSlots(maxSessions: Option<nat>, maxStarting: Option<nat>, line: string, msSet: bool, mstSet: bool)
    requires Trimmed(line)
    ensures var slots := LimitsEditor(maxSessions, maxStarting).slots;
            && SlotFor(slots, line) == (
                 if maxSessions.Some? && MatchKey(line, "max-sessions").Some? then
                   Some(SlotOf(Update("max-sessions", Written(maxSessions))))
                 else if maxStarting.Some? && MatchKey(line, "max-starting").Some? then
                   Some(SlotOf(Update("max-starting", Written(maxStarting))))
                 else None)
            && Missing(slots, Flags(msSet, mstSet)) ==
               LimitLine("max-sessions", maxSessions, msSet) + LimitLine("max-starting", maxStarting, mstSet)
  {
    hide MatchKey, HasKey, Decimal, SlotFor, Missing;
    LimitKeys();
    var done := Flags(msSet, mstSet);
    MatchKeyIffHasKey(line, "max-sessions");
    MatchKeyIffHasKey(line, "max-starting");
    OptionalSlots("max-sessions", Written(maxSessions), line, done);
    OptionalSlots("max-starting", Written(maxStarting), line, done);
    SlotsAppend(Optional("max-sessions", Written(maxSessions)), Optional("max-starting", Written(maxStarting)), line, done);
  }

  /** What the editor writes for one line, and the flags it leaves. */
  lemma LimitsPass(
      maxSessions: Option<nat>, maxStarting: Option<nat>, raw: string, inside: bool, msSet: bool, mstSet: bool)
    ensures var line := Strip(raw);
            var first := inside && maxSessions.Some? && MatchKey(line, "max-sessions").Some?;
            var second := inside && maxStarting.Some? && MatchKey(line, "max-starting").Some?;
            var e, done := LimitsEditor(maxSessions, maxStarting), Flags(msSet, mstSet);
            && Emit(e, raw, inside, done) == (
                 if IsHeader(raw) then
                   (if inside then
                      LimitLine("max-sessions", maxSessions, msSet) + LimitLine("max-starting", maxStarting, mstSet)
                    else []) + [raw]
                 else if first then LimitLine("max-sessions", maxSessions, false)
                 else if second then LimitLine("max-starting", maxStarting, false)
                 else [raw])
            && Mark(e, raw, inside, done) == (
                 if IsHeader(raw) then Flags(false, false)
                 else if first then Flags(true, mstSet)
                 else if second then Flags(msSet, true)
                 else done)
  {
    hide IsHeader, Strip, MatchKey, Decimal, SlotFor, Missing;
    LimitsSlots(maxSessions, maxStarting, Strip(raw), msSet, mstSet);
    assert [] + [raw] == [raw];
  }

  /** Injects the limits that the section lacks. */
  method InjectLimits(out: seq<string>, maxSessions: Option<nat>, maxStarting: Option<nat>, msSet: bool, mstSet: bool)
    returns (out': seq<string>)
    ensures out' == out + (LimitLine("max-sessions", maxSessions, msSet) + LimitLine("max-starting", maxStarting, mstSet))
  {
    hide Decimal;
    LimitKeys();
    out' := out;
    if maxSessions.Some? && !msSet {
      out' := out' + ["max-sessions=" + Decimal(maxSessions.value)];
    }
    if maxStarting.Some? && !mstSet {
      out' := out' + ["max-starting=" + Decimal(maxStarting.value)];
    }
  }

  /** The scan of `set_limits`. */
  method EditLimits(lines: seq<string>, maxSessions: Option<nat>, maxStarting: Option<nat>) returns (out: seq<string>)
    ensures out == Edit(LimitsEditor(maxSessions, maxStarting), lines)
  {
    hide IsHeader, Strip, MatchKey, Edited, Emit, Mark, Missing, Decimal, Flags;
    ghost var e := LimitsEditor(maxSessions, maxStarting);
    out := [];
    var inPppoe, msSet, mstSet := false, false, false;
    EditStart(e, lines);
    NoFlags(maxSessions, maxStarting);
    LimitKeys();
    for i := 0 to |lines|
      invariant out + Edited(e, lines[i..], inPppoe, Flags(msSet, mstSet)) == Edit(e, lines)
    {
      var raw := lines[i];
      var line := Strip(raw);
      EditedPass(e, lines, i, inPppoe, Flags(msSet, mstSet), out);
      LimitsPass(maxSessions, maxStarting, raw, inPppoe, msSet, mstSet);
      if IsHeader(raw) {
        ghost var before := out;
        if inPppoe {
          out := InjectLimits(out, maxSessions, maxStarting, msSet, mstSet);
        }
        out := out + [raw];
        assert out == before + Emit(e, raw, inPppoe, Flags(msSet, mstSet));
        inPppoe := Lower(line) == "[pppoe]";
        msSet := false;
        mstSet := false;
      } else if inPppoe && maxSessions.Some? && MatchKey(line, "max-sessions").Some? {
        out := out + ["max-sessions=" + Decimal(maxSessions.value)];
        msSet := true;
      } else if inPppoe && maxStarting.Some? && MatchKey(line, "max-starting").Some? {
        out := out + ["max-starting=" + Decimal(maxStarting.value)];
        mstSet := true;
      } else {
        out := out + [raw];
      }
    }
    EditedEnd(e, lines, inPppoe, Flags(msSet, mstSet));
    LimitsSlots(maxSessions, maxStarting, "", msSet, mstSet);
    assert out + (if inPppoe then Missing(e.slots, Flags(msSet, mstSet)) else []) == Edit(e, lines);
    if inPppoe {
      out := InjectLimits(out, maxSessions, maxStarting, msSet, mstSet);
    } else {
      assert out + [] == out;
    }
  }

  /** Sets the given limits in every `[pppoe]` section of the file. */
  method SetLimits(cm: Manager, maxSessions: Option<nat>, maxStarting: Option<nat>, now: string) returns (r: Result<()>)
    modifies cm`file, cm`backups
    ensures cm.Abs() == EditFile(LimitsEditor(maxSessions, maxStarting), old(cm.Abs()), now)
    ensures r == EditResult(LimitsEditor(maxSessions, maxStarting), old(cm.Abs()))
  {
    if cm.file.None? {
      return Err(NotFound);
    }
    var out := EditLimits(SplitLines(cm.file.value), maxSessions, maxStarting);
    var written := cm.WriteConfig(Unlines(out), true, now);
    return if written.Ok? then Ok(()) else Err(written.error);
  }

  lemma NoFlags(maxSessions: Option<nat>, maxStarting: Option<nat>)
    ensures Flags(false, false) == {} && LimitsEditor(maxSessions, maxStarting).section == PPPOE
  {
  }

  lemma LimitKeys()
    ensures KeyName("max-sessions") && KeyName("max-starting") && KeyName("session-timeout")
    ensures "max-sessions" != "max-starting"
    ensures "max-sessions" + "=" == "max-sessions=" && "max-starting" + "=" == "max-starting="
  {
    assert "max-sessions"[5] != "max-starting"[5];
  }

  // ---------------------------------------------------------------------------
  // The PADI limit of one interface
  // ---------------------------------------------------------------------------

  datatype InterfaceLimit = InterfaceLimit(padiLimit: int, found: bool)

  /** `Malformed` stands for the `ValueError` of `int`. */
  datatype Lookup = Limit(value: InterfaceLimit) | Malformed

  /** The lines this reader looks at: `interface=` in lower case, without blanks. */
  predicate PlainIface(line: string) {
    "interface=" <= line
  }

  function IfaceParts(line: string): (parts: seq<string>)
    ensures |parts| >= 1
  {
    Split(ValueOf(line), ',')
  }

  /** The last `padi-limit` among the options, starting from `limit`. */
  function PadiLimit(options: seq<string>, limit: int): Option<int> {
    if options == [] then Some(limit)
    else
      var option := Strip(options[0]);
      if HasEq(option) && Strip(option[..Find(option, '=')]) == "padi-limit" then
        match ParseInt(option[Find(option, '=') + 1..])
        case None => None
        case Some(n) => PadiLimit(options[1..], n)
      else PadiLimit(options[1..], limit)
  }

  function FindLimit(body: seq<string>, name: string): Lookup {
    if body == [] then Limit(InterfaceLimit(0, false))
    else if PlainIface(body[0]) && Strip(IfaceParts(body[0])[0]) == name then
      match PadiLimit(IfaceParts(body[0])[1..], 0)
      case None => Malformed
      case Some(n) => Limit(InterfaceLimit(n, true))
    else FindLimit(body[1..], name)
  }

  lemma FindLimitStep(lines: seq<string>, i: nat, inside: bool, name: string)
    requires i < |lines|
    ensures var raw := lines[i];
            FindLimit(Body(lines[i..], {PPPOE}, inside), name) ==
            if inside && !IsHeader(raw) && PlainIface(Strip(raw)) && Strip(IfaceParts(Strip(raw))[0]) == name then
              FindLimit([Strip(raw)], name)
            else FindLimit(Body(lines[i + 1..], {PPPOE}, Next(raw, {PPPOE}, inside)), name)
  {
    hide IsHeader, Opens, Strip, PlainIface, IfaceParts, PadiLimit;
    assert lines[i..][1..] == lines[i + 1..];
    var rest := Body(lines[i + 1..], {PPPOE}, Next(lines[i], {PPPOE}, inside));
    assert [] + rest == rest && ([Strip(lines[i])] + rest)[1..] == rest;
  }

  /** The option loop of `get_interface_limit`. */
  method ScanOptions(options: seq<string>) returns (limit: Option<int>)
    ensures limit == PadiLimit(options, 0)
  {
    hide Strip, ParseInt;
    var n := 0;
    assert options[0..] == options;
    for k := 0 to |options|
      invariant PadiLimit(options[k..], n) == PadiLimit(options, 0)
    {
      assert options[k..][0] == options[k] && options[k..][1..] == options[k + 1..];
      var option := Strip(options[k]);
      if HasEq(option) && Strip(option[..Find(option, '=')]) == "padi-limit" {
        var parsed := ParseInt(option[Find(option, '=') + 1..]);
        if parsed.None? {
          return None;
        }
        n := parsed.value;
      }
    }
    return Some(n);
  }

  method GetInterfaceLimit(cm: Manager, name: string) returns (r: Result<Lookup>)
    ensures r == if cm.file.Some? then Ok(FindLimit(Body(SplitLines(cm.file.value), {PPPOE}, false), name)) else Err(NotFound)
  {
    if cm.file.None? {
      return Err(NotFound);
    }
    hide IsHeader, Strip, Body, PlainIface, IfaceParts, PadiLimit, FindLimit;
    var lines := SplitLines(cm.file.value);
    var inPppoe := false;
    assert lines[0..] == lines;
    for i := 0 to |lines|
      invariant FindLimit(Body(lines[i..], {PPPOE}, inPppoe), name) == FindLimit(Body(lines, {PPPOE}, false), name)
    {
      var raw := lines[i];
      var line := Strip(raw);
      FindLimitStep(lines, i, inPppoe, name);
      if IsHeader(raw) {
        inPppoe := Lower(line) == "[pppoe]";
      } else if inPppoe && PlainIface(line) {
        var parts := IfaceParts(line);
        if Strip(parts[0]) == name {
          var limit := ScanOptions(parts[1..]);
          FindLimitHere(line, name);
          return Ok(if limit.Some? then Limit(InterfaceLimit(limit.value, true)) else Malformed);
        }
      }
    }
    NothingLeft(lines, {PPPOE}, inPppoe);
    NotFoundAtEnd(name);
    return Ok(Limit(InterfaceLimit(0, false)));
  }

  lemma FindLimitHere(line: string, name: string)
    requires PlainIface(line) && Strip(IfaceParts(line)[0]) == name
    ensures FindLimit([line], name) ==
            match PadiLimit(IfaceParts(line)[1..], 0)
            case None => Malformed
            case Some(n) => Limit(InterfaceLimit(n, true))
  {
  }

  lemma NotFoundAtEnd(name: string)
    ensures FindLimit([], name) == Limit(InterfaceLimit(0, false))
  {
  }
}
