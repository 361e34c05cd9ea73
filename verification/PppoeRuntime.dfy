/** PPPoE runtime settings: `service-name`, `ac-name` and `verbose` in the `[pppoe]`
    section. Keys are found by partition, and the "already written" set is never cleared. */
module PppoeRuntime {
  import opened Text
  import opened Patterns
  import opened Sections
  import opened KeyLines
  import opened ConfigManager
  import opened ConfigEdit

  datatype Runtime = Runtime(serviceName: string, acName: string, verbose: nat)

  function ReadRuntime(lines: seq<string>): Runtime {
    var body := Body(lines, {PPPOE}, false);
    Runtime(TextIn(body, "service-name", ""), TextIn(body, "ac-name", ""), WholeIn(body, "verbose", 0, 0))
  }

  function RuntimeUpdates(serviceName: Option<string>, acName: Option<string>, verbose: Option<nat>): seq<Update> {
    Optional("service-name", serviceName) + Optional("ac-name", acName)
    + Optional("verbose", if verbose.Some? then Some(Decimal(verbose.value)) else None)
  }

  function RuntimeEditor(serviceName: Option<string>, acName: Option<string>, verbose: Option<nat>): Editor {
    KeyEditor(RuntimeUpdates(serviceName, acName, verbose), false)
  }

  lemma RuntimeKeys()
    ensures KeyName("service-name") && KeyName("ac-name") && KeyName("verbose")
    ensures "service-name" != "ac-name" && "service-name" != "verbose" && "ac-name" != "verbose"
  {
    assert "service-name"[0] != "ac-name"[0] && "service-name"[0] != "verbose"[0] && "ac-name"[0] != "verbose"[0];
  }

  /** Reads the runtime settings. */
  method GetRuntime(cm: Manager) returns (r: Result<Runtime>)
    ensures r == if cm.file.Some? then Ok(ReadRuntime(SplitLines(cm.file.value))) else Err(NotFound)
  {
    if cm.file.None? {
      return Err(NotFound);
    }
    hide IsHeader, Strip, Body, TextIn, WholeIn, HasEq, KeyOf, ValueOf, DigitsOr;
    RuntimeKeys();
    var lines := SplitLines(cm.file.value);
    var result := Runtime("", "", 0);
    var inPppoe := false;
    assert lines[0..] == lines;
    for i := 0 to |lines|
      invariant TextIn(Body(lines[i..], {PPPOE}, inPppoe), "service-name", result.serviceName)
                == TextIn(Body(lines, {PPPOE}, false), "service-name", "")
      invariant TextIn(Body(lines[i..], {PPPOE}, inPppoe), "ac-name", result.acName)
                == TextIn(Body(lines, {PPPOE}, false), "ac-name", "")
      invariant WholeIn(Body(lines[i..], {PPPOE}, inPppoe), "verbose", 0, result.verbose)
                == WholeIn(Body(lines, {PPPOE}, false), "verbose", 0, 0)
    {
      var raw := lines[i];
      var stripped := Strip(raw);
      TextStep(lines, i, {PPPOE}, inPppoe, "service-name", result.serviceName);
      TextStep(lines, i, {PPPOE}, inPppoe, "ac-name", result.acName);
      WholeStep(lines, i, {PPPOE}, inPppoe, "verbose", 0, result.verbose);
      if IsHeader(raw) {
        inPppoe := Lower(stripped) == "[pppoe]";
      } else if !inPppoe || stripped == "" || stripped[0] == '#' {
        BlankOrComment(stripped);
      } else if HasEq(stripped) {
        var key, val := KeyOf(stripped), ValueOf(stripped);
        if key == "service-name" {
          result := result.(serviceName := val);
        } else if key == "ac-name" {
          result := result.(acName := val);
        } else if key == "verbose" {
          result := result.(verbose := DigitsOr(val, 0));
        }
      }
    }
    NothingLeft(lines, {PPPOE}, inPppoe);
    return Ok(result);
  }

  lemma BlankOrComment(line: string)
    requires Trimmed(line)
    ensures line == "" || line[0] == '#' ==>
              !HasKey(line, "service-name") && !HasKey(line, "ac-name") && !HasKey(line, "verbose")
  {
    RuntimeKeys();
    if line != "" && line[0] == '#' {
      CommentSetsNothing(line, "service-name");
      CommentSetsNothing(line, "ac-name");
      CommentSetsNothing(line, "verbose");
    }
  }

  // ---------------------------------------------------------------------------
  // Setting
  // ---------------------------------------------------------------------------

  function KeySet(keys: set<string>): set<Pattern> {
    set k | k in keys :: Key(k)
  }

  function UpdateFor(us: seq<Update>, key: string): (r: Option<Update>)
    ensures r.Some? ==> r.value in us && r.value.key == key
  {
    if us == [] then None else if us[0].key == key then Some(us[0]) else UpdateFor(us[1..], key)
  }

  lemma {:induction false} SlotByKey(us: seq<Update>, line: string)
    ensures SlotFor(SlotsOf(us), line) ==
            if HasEq(line) && UpdateFor(us, KeyOf(line)).Some? then Some(SlotOf(UpdateFor(us, KeyOf(line)).value))
            else None
  {
    hide HasEq, KeyOf;
    if us != [] {
      assert SlotsOf(us)[1..] == SlotsOf(us[1..]);
      SlotByKey(us[1..], line);
    }
  }

  predicate Distinct(us: seq<Update>) {
    forall i, j :: 0 <= i < j < |us| ==> us[i].key != us[j].key
  }

  lemma {:induction false} MissingWithout(us: seq<Update>, done: set<Pattern>, key: string)
    requires forall u :: u in us ==> u.key != key
    ensures Missing(SlotsOf(us), done + {Key(key)}) == Missing(SlotsOf(us), done)
  {
    if us != [] {
      assert us[0] in us && SlotsOf(us)[1..] == SlotsOf(us[1..]);
      MissingWithout(us[1..], done, key);
    }
  }

  lemma InjectStep(us: seq<Update>, i: nat, keys: set<string>)
    requires Distinct(us) && i < |us| && us[i].value.Some?
    ensures Missing(SlotsOf(us[i..]), KeySet(keys)) ==
            (if us[i].key in keys then [] else [us[i].key + "=" + us[i].value.value])
            + Missing(SlotsOf(us[i + 1..]), KeySet(keys + {us[i].key}))
  {
    var u, rest := us[i], us[i + 1..];
    assert us[i..][0] == u && us[i..][1..] == rest;
    assert SlotsOf(us[i..]) == [SlotOf(u)] + SlotsOf(rest);
    assert ([SlotOf(u)] + SlotsOf(rest))[1..] == SlotsOf(rest);
    assert Key(u.key) in KeySet(keys) <==> u.key in keys;
    MissingWithout(rest, KeySet(keys), u.key);
    assert KeySet(keys + {u.key}) == KeySet(keys) + {Key(u.key)};
  }

  /** Injects the keys not written so far, and records them. */
  method InjectMissing(out: seq<string>, updates: seq<Update>, keysSet: set<string>)
    returns (out': seq<string>, keysSet': set<string>)
    requires Distinct(updates) && forall u :: u in updates ==> u.value.Some?
    ensures out' == out + Missing(SlotsOf(updates), KeySet(keysSet))
    ensures keysSet' == keysSet + set u | u in updates :: u.key
  {
    hide Missing, SlotsOf, KeySet, Distinct;
    out', keysSet' := out, keysSet;
    assert updates[0..] == updates;
    for i := 0 to |updates|
      invariant out' + Missing(SlotsOf(updates[i..]), KeySet(keysSet')) == out + Missing(SlotsOf(updates), KeySet(keysSet))
      invariant keysSet' == keysSet + set u | u in updates[..i] :: u.key
    {
      var u := updates[i];
      InjectStep(updates, i, keysSet');
      assert updates[..i + 1] == updates[..i] + [u];
      if u.key !in keysSet' {
        out' := out' + [u.key + "=" + u.value.value];
        keysSet' := keysSet' + {u.key};
      } else {
        assert keysSet' + {u.key} == keysSet';
        assert [] + Missing(SlotsOf(updates[i + 1..]), KeySet(keysSet')) == Missing(SlotsOf(updates[i + 1..]), KeySet(keysSet'));
      }
    }
    assert updates[..|updates|] == updates;
    NothingMissing(updates, keysSet');
  }

  lemma NothingMissing(us: seq<Update>, keys: set<string>)
    ensures Missing(SlotsOf(us[|us|..]), KeySet(keys)) == []
  {
  }

  lemma RuntimePass(us: seq<Update>, raw: string, inside: bool, keysSet: set<string>)
    ensures var line := Strip(raw);
            var hit := if inside && HasEq(line) then UpdateFor(us, KeyOf(line)) else None;
            var e, done := KeyEditor(us, false), KeySet(keysSet);
            && Emit(e, raw, inside, done) == (
                 if IsHeader(raw) then (if inside then Missing(SlotsOf(us), done) else []) + [raw]
                 else if hit.Some? then SlotOf(hit.value).lines
                 else [raw])
            && Mark(e, raw, inside, done) == (
                 if IsHeader(raw) then KeySet(if inside then keysSet + set u | u in us :: u.key else keysSet)
                 else if hit.Some? then KeySet(keysSet + {KeyOf(line)})
                 else done)
  {
    hide IsHeader, Strip, HasEq, KeyOf, SlotFor, Missing, KeySet, AllPatterns;
    SlotByKey(us, Strip(raw));
    assert [] + [raw] == [raw];
    var key := KeyOf(Strip(raw));
    KeySetUnion(keysSet, {key});
    OneKey(key);
    AllKeys(us);
    KeySetUnion(keysSet, set u | u in us :: u.key);
  }

  lemma KeySetUnion(a: set<string>, b: set<string>)
    ensures KeySet(a + b) == KeySet(a) + KeySet(b)
  {
  }

  lemma OneKey(key: string)
    ensures KeySet({key}) == {Key(key)}
  {
  }

  lemma AllKeys(us: seq<Update>)
    ensures AllPatterns(KeyEditor(us, false)) == KeySet(set u | u in us :: u.key)
  {
    forall u | u in us
      ensures Key(u.key) in AllPatterns(KeyEditor(us, false))
    {
      var i :| 0 <= i < |us| && us[i] == u;
      assert SlotsOf(us)[i] in SlotsOf(us);
    }
  }

  /** The scan of `set_pppoe_runtime_config`. */
  method EditRuntime(lines: seq<string>, updates: seq<Update>) returns (out: seq<string>)
    requires Distinct(updates) && forall u :: u in updates ==> u.value.Some?
    ensures out == Edit(KeyEditor(updates, false), lines)
  {
    hide IsHeader, Strip, HasEq, KeyOf, Edited, Emit, Mark, Missing, KeySet;
    ghost var e := KeyEditor(updates, false);
    out := [];
    var inPppoe := false;
    var keysSet: set<string> := {};
    EditStart(e, lines);
    NoKeys();
    for i := 0 to |lines|
      invariant out + Edited(e, lines[i..], inPppoe, KeySet(keysSet)) == Edit(e, lines)
    {
      var raw := lines[i];
      var line := Strip(raw);
      EditedPass(e, lines, i, inPppoe, KeySet(keysSet), out);
      RuntimePass(updates, raw, inPppoe, keysSet);
      if IsHeader(raw) {
        ghost var before, emitted := out, Emit(e, raw, inPppoe, KeySet(keysSet));
        if inPppoe {
          out, keysSet := InjectMissing(out, updates, keysSet);
        }
        out := out + [raw];
        assert out == before + emitted;
        inPppoe := Lower(line) == "[pppoe]";
      } else if inPppoe && HasEq(line) && UpdateFor(updates, KeyOf(line)).Some? {
        var u := UpdateFor(updates, KeyOf(line)).value;
        out := out + [u.key + "=" + u.value.value];
        keysSet := keysSet + {u.key};
      } else {
        out := out + [raw];
      }
    }
    EditedEnd(e, lines, inPppoe, KeySet(keysSet));
    if inPppoe {
      out, keysSet := InjectMissing(out, updates, keysSet);
    } else {
      assert out + [] == out;
    }
  }

  lemma NoKeys()
    ensures KeySet({}) == {}
  {
  }

  lemma RuntimeUpdatesShape(serviceName: Option<string>, acName: Option<string>, verbose: Option<nat>)
    ensures var us := RuntimeUpdates(serviceName, acName, verbose);
            && Distinct(us)
            && (forall u :: u in us <==>
                  || (serviceName.Some? && u == Update("service-name", serviceName))
                  || (acName.Some? && u == Update("ac-name", acName))
                  || (verbose.Some? && u == Update("verbose", Some(Decimal(verbose.value)))))
  {
    hide Decimal;
    RuntimeKeys();
  }

  /** Sets the given settings in the `[pppoe]` sections of the file; setting nothing is refused. */
  method SetRuntime(cm: Manager, serviceName: Option<string>, acName: Option<string>, verbose: Option<nat>, now: string)
    returns (r: Result<()>)
    modifies cm`file, cm`backups
    ensures serviceName.None? && acName.None? && verbose.None? ==> cm.Abs() == old(cm.Abs()) && r == Err(BadArgument)
    ensures serviceName.Some? || acName.Some? || verbose.Some? ==>
              && cm.Abs() == EditFile(RuntimeEditor(serviceName, acName, verbose), old(cm.Abs()), now)
              && r == EditResult(RuntimeEditor(serviceName, acName, verbose), old(cm.Abs()))
  {
    if serviceName.None? && acName.None? && verbose.None? {
      return Err(BadArgument);
    }
    if cm.file.None? {
      return Err(NotFound);
    }
    var updates := [];
    if serviceName.Some? {
      updates := updates + [Update("service-name", serviceName)];
    }
    if acName.Some? {
      updates := updates + [Update("ac-name", acName)];
    }
    if verbose.Some? {
      updates := updates + [Update("verbose", Some(Decimal(verbose.value)))];
    }
    assert updates == RuntimeUpdates(serviceName, acName, verbose);
    RuntimeUpdatesShape(serviceName, acName, verbose);
    var out := EditRuntime(SplitLines(cm.file.value), updates);
    var written := cm.WriteConfig(Unlines(out), true, now);
    return if written.Ok? then Ok(()) else Err(written.error);
  }
}
