/** Named address pools: the entries of the `[ip-pool]` section. */
module IpPool {
  import opened Text
  import opened Patterns
  import opened Sections
  import opened KeyLines
  import opened ConfigManager
  import opened ConfigEdit

  const POOLS := "[ip-pool]"

  // ---------------------------------------------------------------------------
  // Listing
  // ---------------------------------------------------------------------------

  function Pools(body: seq<string>): seq<Pool> {
    if body == [] then []
    else (if PoolEntry(body[0]).Some? then [PoolEntry(body[0]).value] else []) + Pools(body[1..])
  }

  /** The pools of all `[ip-pool]` sections, in file order. */
  function ReadPools(lines: seq<string>): seq<Pool> {
    Pools(Body(lines, {POOLS}, false))
  }

  predicate Named(pools: seq<Pool>, name: string) {
    exists p :: p in pools && p.name == name
  }

  lemma PoolsStep(lines: seq<string>, i: nat, inside: bool)
    requires i < |lines|
    ensures var raw := lines[i];
            var hit := if inside && !IsHeader(raw) then PoolEntry(Strip(raw)) else None;
            Pools(Body(lines[i..], {POOLS}, inside)) ==
            (if hit.Some? then [hit.value] else []) + Pools(Body(lines[i + 1..], {POOLS}, Next(raw, {POOLS}, inside)))
  {
    hide IsHeader, Opens, Strip, PoolEntry;
    assert lines[i..][1..] == lines[i + 1..];
    var rest := Body(lines[i + 1..], {POOLS}, Next(lines[i], {POOLS}, inside));
    assert [] + rest == rest && ([Strip(lines[i])] + rest)[1..] == rest;
  }

  /** A name that is not listed is neither on this line nor listed by what follows. */
  lemma NotNamedStep(lines: seq<string>, inside: bool, name: string)
    requires lines != [] && !Named(Pools(Body(lines, {POOLS}, inside)), name)
    ensures !Named(Pools(Body(lines[1..], {POOLS}, Next(lines[0], {POOLS}, inside))), name)
    ensures var entry := PoolEntry(Strip(lines[0]));
            inside && !IsHeader(lines[0]) && entry.Some? ==> entry.value.name != name
  {
    hide IsHeader, Opens, Strip, PoolEntry, Pools;
    assert lines[0..] == lines;
    PoolsStep(lines, 0, inside);
  }

  /** The gateway line is not a pool entry. */
  lemma GatewayIsNoPool(line: string)
    requires "gw=" <= line
    ensures PoolEntry(line).None?
  {
    assert line[0] == "gw="[0];
    assert DigitsEnd(line, 0) == 0;
  }

  /** `list_pools` */
  method ScanPools(lines: seq<string>) returns (pools: seq<Pool>)
    ensures pools == ReadPools(lines)
  {
    hide IsHeader, Strip, Body, Pools, PoolEntry;
    pools := [];
    var inPool := false;
    assert lines[0..] == lines;
    for i := 0 to |lines|
      invariant pools + Pools(Body(lines[i..], {POOLS}, inPool)) == ReadPools(lines)
    {
      var raw := lines[i];
      var line := Strip(raw);
      PoolsStep(lines, i, inPool);
      if IsHeader(raw) {
        inPool := Lower(line) == "[ip-pool]";
      } else if inPool {
        if "gw=" <= line {
          GatewayIsNoPool(line);
        } else {
          var m := PoolEntry(line);
          if m.Some? {
            pools := pools + [m.value];
          }
        }
      }
    }
    NoPools();
    NothingLeft(lines, {POOLS}, inPool);
  }

  lemma NoPools()
    ensures Pools([]) == []
  {
  }

  method ListPools(cm: Manager) returns (r: Result<seq<Pool>>)
    ensures r == if cm.file.Some? then Ok(ReadPools(SplitLines(cm.file.value))) else Err(NotFound)
  {
    if cm.file.None? {
      return Err(NotFound);
    }
    var pools := ScanPools(SplitLines(cm.file.value));
    return Ok(pools);
  }

  // ---------------------------------------------------------------------------
  // Adding and removing
  // ---------------------------------------------------------------------------

  /** Writes the entry once, at the end of the first `[ip-pool]` section. */
  function AddEditor(pool: Pool): Editor {
    Editor(POOLS, [Slot(PoolNamed(pool.name), [pool.range + "," + pool.name], false)], false)
  }

  function RemoveEditor(name: string): Editor {
    Editor(POOLS, [Slot(PoolNamed(name), [], false)], true)
  }

  /** What `add_pool` takes for a range: its pattern ends in `$`, which matches before a final
      line feed too. */
  predicate RangeAccepted(range: string) {
    RangeShaped(range) || (range != "" && range[|range| - 1] == '\n' && RangeShaped(range[..|range| - 1]))
  }

  lemma RangeAcceptedIff(range: string)
    ensures RangeAccepted(range) <==> RangeText(range) || exists r :: range == r + ['\n'] && RangeText(r)
  {
    hide RangeShaped, RangeText;
    RangeShapedIff(range);
    if range != "" {
      var r := range[..|range| - 1];
      RangeShapedIff(r);
      assert range == r + [range[|range| - 1]];
    }
    forall r | range == r + ['\n']
      ensures range[|range| - 1] == '\n' && range[..|range| - 1] == r
    {
    }
  }

  function AddedState(s: State, pool: Pool, now: string): State {
    if !RangeAccepted(pool.range) || s.file.None? || Named(ReadPools(SplitLines(s.file.value)), pool.name) then s
    else EditFile(AddEditor(pool), s, now)
  }

  function RemovedState(s: State, name: string, now: string): State {
    if s.file.None? || !Named(ReadPools(SplitLines(s.file.value)), name) then s
    else EditFile(RemoveEditor(name), s, now)
  }

  function Flag(name: string, set_: bool): set<Pattern> {
    if set_ then {PoolNamed(name)} else {}
  }

  lemma PoolPass(name: string, xs: seq<string>, reset: bool, raw: string, inside: bool, set_: bool)
    ensures var e := Editor(POOLS, [Slot(PoolNamed(name), xs, false)], reset);
            var entry := PoolEntry(Strip(raw));
            var hit := inside && entry.Some? && entry.value.name == name;
            && Emit(e, raw, inside, Flag(name, set_)) == (
                 if IsHeader(raw) then (if inside && !set_ then xs else []) + [raw]
                 else if hit then xs
                 else [raw])
            && Mark(e, raw, inside, Flag(name, set_)) == (
                 if IsHeader(raw) then Flag(name, !reset && (set_ || inside)) else Flag(name, set_ || hit))
            && Missing(e.slots, Flag(name, set_)) == (if set_ then [] else xs)
  {
    hide IsHeader, Strip, PoolEntry;
    var slot := Slot(PoolNamed(name), xs, false);
    var e := Editor(POOLS, [slot], reset);
    OneMissing(e, slot, Flag(name, set_));
    assert [slot][1..] == [] && [] + [raw] == [raw];
    assert AllPatterns(e) == {PoolNamed(name)};
    assert {PoolNamed(name)} + {PoolNamed(name)} == {PoolNamed(name)} && {} + {PoolNamed(name)} == {PoolNamed(name)};
  }

  /** The scan of `add_pool`, for a name that is not listed. */
  method InsertPool(lines: seq<string>, pool: Pool) returns (out: seq<string>)
    requires !Named(ReadPools(lines), pool.name)
    ensures out == Edit(AddEditor(pool), lines)
  {
    hide IsHeader, Strip, PoolEntry, Edited, Emit, Mark, Missing, Body, Pools;
    ghost var e := AddEditor(pool);
    var entry := pool.range + "," + pool.name;
    out := [];
    var inPool, inserted := false, false;
    EditStart(e, lines);
    assert lines[0..] == lines;
    for i := 0 to |lines|
      invariant out + Edited(e, lines[i..], inPool, Flag(pool.name, inserted)) == Edit(e, lines)
      invariant !Named(Pools(Body(lines[i..], {POOLS}, inPool)), pool.name)
    {
      var raw := lines[i];
      var line := Strip(raw);
      EditedPass(e, lines, i, inPool, Flag(pool.name, inserted), out);
      PoolPass(pool.name, [entry], false, raw, inPool, inserted);
      PoolsStep(lines, i, inPool);
      if IsHeader(raw) {
        ghost var before, emitted := out, Emit(e, raw, inPool, Flag(pool.name, inserted));
        if inPool && !inserted {
          out := out + [entry];
          inserted := true;
        }
        inPool := Lower(line) == "[ip-pool]";
        out := out + [raw];
        assert out == before + emitted;
      } else {
        out := out + [raw];
      }
    }
    EditedEnd(e, lines, inPool, Flag(pool.name, inserted));
    PoolPass(pool.name, [entry], false, "", inPool, inserted);
    assert out + [] == out;
    if inPool && !inserted {
      out := out + [entry];
    }
  }

  method AddPool(cm: Manager, pool: Pool, now: string) returns (r: Result<()>)
    modifies cm`file, cm`backups
    ensures cm.Abs() == AddedState(old(cm.Abs()), pool, now)
    ensures r ==
            if !RangeAccepted(pool.range) then Err(BadArgument)
            else if old(cm.file).None? then Err(NotFound)
            else if Named(ReadPools(SplitLines(old(cm.file).value)), pool.name) then Err(AlreadyExists)
            else EditResult(AddEditor(pool), old(cm.Abs()))
  {
    if !RangeAccepted(pool.range) {
      return Err(BadArgument);
    }
    if cm.file.None? {
      return Err(NotFound);
    }
    var lines := SplitLines(cm.file.value);
    var current := ScanPools(lines);
    if exists p :: p in current && p.name == pool.name {
      return Err(AlreadyExists);
    }
    var out := InsertPool(lines, pool);
    var written := cm.WriteConfig(Unlines(out), true, now);
    return if written.Ok? then Ok(()) else Err(written.error);
  }

  /** The scan of `remove_pool`. */
  method DeletePool(lines: seq<string>, name: string) returns (out: seq<string>, removed: bool)
    ensures out == Edit(RemoveEditor(name), lines)
    ensures removed <==> Named(ReadPools(lines), name)
  {
    hide IsHeader, Strip, PoolEntry, Edited, Emit, Mark, Missing, Body, Pools;
    ghost var e := RemoveEditor(name);
    out, removed := [], false;
    var inPool := false;
    ghost var set_ := false;
    EditStart(e, lines);
    assert lines[0..] == lines;
    for i := 0 to |lines|
      invariant out + Edited(e, lines[i..], inPool, Flag(name, set_)) == Edit(e, lines)
      invariant removed || Named(Pools(Body(lines[i..], {POOLS}, inPool)), name) <==> Named(ReadPools(lines), name)
    {
      var raw := lines[i];
      var line := Strip(raw);
      EditedPass(e, lines, i, inPool, Flag(name, set_), out);
      PoolPass(name, [], true, raw, inPool, set_);
      PoolsStep(lines, i, inPool);
      if IsHeader(raw) {
        inPool := Lower(line) == "[ip-pool]";
        out := out + [raw];
        set_ := false;
      } else {
        var m := if inPool then PoolEntry(line) else None;
        if m.Some? && m.value.name == name {
          removed, set_ := true, true;
          assert out + [] == out;
        } else {
          out := out + [raw];
        }
      }
    }
    EditedEnd(e, lines, inPool, Flag(name, set_));
    PoolPass(name, [], true, "", inPool, set_);
    assert out + [] == out;
    NoPools();
    NothingLeft(lines, {POOLS}, inPool);
  }

  method RemovePool(cm: Manager, name: string, now: string) returns (r: Result<()>)
    modifies cm`file, cm`backups
    ensures cm.Abs() == RemovedState(old(cm.Abs()), name, now)
    ensures r ==
            if old(cm.file).None? then Err(NotFound)
            else if !Named(ReadPools(SplitLines(old(cm.file).value)), name) then Err(NoSuchEntry)
            else EditResult(RemoveEditor(name), old(cm.Abs()))
  {
    if cm.file.None? {
      return Err(NotFound);
    }
    var out, removed := DeletePool(SplitLines(cm.file.value), name);
    if !removed {
      return Err(NoSuchEntry);
    }
    var written := cm.WriteConfig(Unlines(out), true, now);
    return if written.Ok? then Ok(()) else Err(written.error);
  }

  // ---------------------------------------------------------------------------
  // Adding and removing undo each other
  // ---------------------------------------------------------------------------

  /** A pool as the request patterns let it through: the name is neither empty nor blank at
      its ends, and neither part leaves its line. */
  predicate Proper(pool: Pool) {
    RangeShaped(pool.range) && ProperName(pool.name)
  }

  predicate ProperName(name: string) {
    name != "" && Trimmed(name) && OneLine(name)
  }

  lemma EntryOneLine(pool: Pool)
    requires Proper(pool)
    ensures OneLine(pool.range + "," + pool.name)
  {
    hide RangeShaped;
    RangeOneLine(pool.range);
    OneLineAppend(pool.range, ",");
    OneLineAppend(pool.range + ",", pool.name);
  }

  lemma DigitFirst(x: string, range: string, rest: string)
    requires Strip(x) == range + "," + rest && range != "" && IsDigit(range[0])
    ensures !IsHeader(x)
  {
    assert Strip(x)[0] == range[0];
  }

  lemma ProperParts(pool: Pool)
    requires Proper(pool)
    ensures RangeShaped(pool.range) && Strip(pool.name) == pool.name && pool.name != ""
  {
    hide RangeShaped, Strip;
    StripTrimmed(pool.name);
  }

  lemma EntryLine(pool: Pool)
    requires Proper(pool)
    ensures var x := pool.range + "," + pool.name;
            OneLine(x) && !IsHeader(x) && PoolEntry(Strip(x)) == Some(pool)
  {
    hide *;
    ProperParts(pool);
    WrittenPoolLine(pool.name, pool.range);
    RangeIsVisible(pool.range);
    EntryOneLine(pool);
    DigitFirst(pool.range + "," + pool.name, pool.range, RStrip(pool.name));
  }

  lemma AddEditorTidy(pool: Pool)
    requires Proper(pool)
    ensures Tidy(AddEditor(pool)) && Repeatable(AddEditor(pool))
    ensures Orderly(AddEditor(pool)) && Covers(AddEditor(pool), AddEditor(pool))
  {
    hide Strip, IsHeader, PoolEntry, OneLine, Covers, Orderly;
    EntryLine(pool);
    TidyCovers(AddEditor(pool));
  }

  lemma RemoveEditorTidy(name: string)
    ensures Tidy(RemoveEditor(name)) && Repeatable(RemoveEditor(name))
    ensures Orderly(RemoveEditor(name)) && Covers(RemoveEditor(name), RemoveEditor(name))
  {
    hide Covers, Orderly;
    TidyCovers(RemoveEditor(name));
  }

  lemma PoolOwned(e: Editor, name: string, xs: seq<string>, line: string)
    requires e.slots == [Slot(PoolNamed(name), xs, false)]
    ensures Owned(e, line) <==> PoolEntry(line).Some? && PoolEntry(line).value.name == name
  {
    hide PoolEntry;
    assert e.slots[1..] == [];
  }

  /** Removing a pool leaves exactly the other lines. */
  lemma {:induction false} RemoveIsVisible(name: string, pool: Pool, lines: seq<string>, inside: bool, done: set<Pattern>)
    requires pool.name == name
    ensures Edited(RemoveEditor(name), lines, inside, done) == Visible(AddEditor(pool), lines, inside)
  {
    hide IsHeader, Opens, Strip, PoolEntry;
    var e, a := RemoveEditor(name), AddEditor(pool);
    OneMissing(e, e.slots[0], done);
    if lines != [] {
      RemoveIsVisible(name, pool, lines[1..], Next(lines[0], {POOLS}, inside), Mark(e, lines[0], inside, done));
      PoolOwned(e, name, [], Strip(lines[0]));
      PoolOwned(a, name, [pool.range + "," + pool.name], Strip(lines[0]));
      assert Missing(e.slots, done) + [lines[0]] == [lines[0]];
    }
  }

  lemma {:induction false} AllVisible(pool: Pool, lines: seq<string>, inside: bool)
    requires !Named(Pools(Body(lines, {POOLS}, inside)), pool.name)
    ensures Visible(AddEditor(pool), lines, inside) == lines
  {
    hide IsHeader, Opens, Strip, PoolEntry, Named, Body, Pools;
    if lines != [] {
      NotNamedStep(lines, inside, pool.name);
      PoolOwned(AddEditor(pool), pool.name, [pool.range + "," + pool.name], Strip(lines[0]));
      AllVisible(pool, lines[1..], Next(lines[0], {POOLS}, inside));
    }
  }

  /** Removing a pool that was just added gives back the very lines there were. */
  lemma RemoveUndoesAdd(pool: Pool, lines: seq<string>)
    requires Proper(pool) && !Named(ReadPools(lines), pool.name)
    ensures Edit(RemoveEditor(pool.name), Edit(AddEditor(pool), lines)) == lines
  {
    hide Proper, Named, Pools, Body, Edited, Visible, Covers;
    AddEditorTidy(pool);
    RemoveIsVisible(pool.name, pool, Edit(AddEditor(pool), lines), false, {});
    VisibleEdited(AddEditor(pool), AddEditor(pool), lines, false, {});
    AllVisible(pool, lines, false);
  }

  // ---------------------------------------------------------------------------
  // What is listed afterwards
  // ---------------------------------------------------------------------------

  /** How many pools are listed up to the end of the first section. */
  function FirstSection(lines: seq<string>, inside: bool): nat {
    if lines == [] || (inside && IsHeader(lines[0])) then 0
    else
      (if inside && PoolEntry(Strip(lines[0])).Some? then 1 else 0)
      + FirstSection(lines[1..], Next(lines[0], {POOLS}, inside))
  }

  function Insert(pools: seq<Pool>, k: nat, pool: Pool): seq<Pool> {
    if k <= |pools| then pools[..k] + [pool] + pools[k..] else pools
  }

  lemma {:induction false} PoolsAppend(a: seq<string>, b: seq<string>)
    ensures Pools(a + b) == Pools(a) + Pools(b)
  {
    hide PoolEntry;
    if a == [] {
      assert a + b == b;
    } else {
      assert (a + b)[1..] == a[1..] + b && (a + b)[0] == a[0];
      PoolsAppend(a[1..], b);
      var first := if PoolEntry(a[0]).Some? then [PoolEntry(a[0]).value] else [];
      assert first + (Pools(a[1..]) + Pools(b)) == first + Pools(a[1..]) + Pools(b);
    }
  }

  lemma OnePool(line: string)
    ensures Pools([line]) == if PoolEntry(line).Some? then [PoolEntry(line).value] else []
  {
    assert [line][1..] == [];
  }

  lemma {:induction false} FirstSectionListed(lines: seq<string>, inside: bool)
    ensures FirstSection(lines, inside) <= |Pools(Body(lines, {POOLS}, inside))|
  {
    hide IsHeader, Opens, Strip, PoolEntry;
    if lines != [] {
      PoolsStep(lines, 0, inside);
      assert lines[0..] == lines;
      FirstSectionListed(lines[1..], Next(lines[0], {POOLS}, inside));
    }
  }

  /** After the entry is written the rest of the scan lists what it listed. */
  lemma {:induction false} AddedBefore(pool: Pool, lines: seq<string>, inside: bool)
    requires Proper(pool) && !Named(Pools(Body(lines, {POOLS}, inside)), pool.name)
    ensures Edited(AddEditor(pool), lines, inside, Flag(pool.name, true)) == lines
  {
    hide IsHeader, Opens, Strip, PoolEntry, Emit, Mark, Proper, Named, Body, Pools, Flag;
    var e, entry := AddEditor(pool), pool.range + "," + pool.name;
    if lines == [] {
      PoolPass(pool.name, [entry], false, "", inside, true);
    } else {
      PoolPass(pool.name, [entry], false, lines[0], inside, true);
      NotNamedStep(lines, inside, pool.name);
      AddedBefore(pool, lines[1..], Next(lines[0], {POOLS}, inside));
      assert [] + [lines[0]] == [lines[0]];
    }
  }

  lemma AddedAtEnd(pool: Pool, inside: bool)
    requires Proper(pool) && inside
    ensures Pools(Body(Edited(AddEditor(pool), [], inside, Flag(pool.name, false)), {POOLS}, inside)) == [pool]
    ensures Pools(Body([], {POOLS}, inside)) == []
  {
    hide IsHeader, Strip, PoolEntry, Emit, Mark, Tidy, Proper, Body, Pools, Flag, Edited, Missing, Orderly, Covers;
    AddEditorTidy(pool);
    EntryListed(pool);
    BodyOfEditedEnd(AddEditor(pool), inside, Flag(pool.name, false));
    PoolPass(pool.name, [pool.range + "," + pool.name], false, "", inside, false);
    NothingLeft([], {POOLS}, inside);
    NoPools();
  }

  /** One line in front of a rest that is scanned with the same flag or after the entry. */
  lemma AddedStep(pool: Pool, lines: seq<string>, inside: bool)
    requires Proper(pool) && !Named(Pools(Body(lines, {POOLS}, inside)), pool.name) && lines != []
    ensures var raw, none := lines[0], Flag(pool.name, false);
            var in' := Next(raw, {POOLS}, inside);
            var head := if inside && !IsHeader(raw) && PoolEntry(Strip(raw)).Some? then [PoolEntry(Strip(raw)).value] else [];
            && !Named(Pools(Body(lines[1..], {POOLS}, in')), pool.name)
            && Pools(Body(lines, {POOLS}, inside)) == head + Pools(Body(lines[1..], {POOLS}, in'))
            && Pools(Body(Edited(AddEditor(pool), lines, inside, none), {POOLS}, inside)) ==
               (if inside && IsHeader(raw) then [pool] else head)
               + Pools(Body(Edited(AddEditor(pool), lines[1..], in', Flag(pool.name, inside && IsHeader(raw))), {POOLS}, in'))
  {
    hide IsHeader, Opens, Strip, PoolEntry, Emit, Mark, Tidy, Proper, Named, Body, Pools, Flag, Edited, Missing, Written, Orderly, Covers;
    var e, raw, none := AddEditor(pool), lines[0], Flag(pool.name, false);
    AddEditorTidy(pool);
    BodyOfEdited(e, lines, inside, none);
    PoolPass(pool.name, [pool.range + "," + pool.name], false, raw, inside, false);
    PoolsStep(lines, 0, inside);
    assert lines[0..] == lines;
    NotNamedStep(lines, inside, pool.name);
    WrittenPools(pool, raw, inside);
    var in' := Next(raw, {POOLS}, inside);
    PoolsAppend(Written(e, raw, inside, none), Body(Edited(e, lines[1..], in', Mark(e, raw, inside, none)), {POOLS}, in'));
  }

  /** A new pool is listed once, after the pools of the first section; the others stay. */
  lemma {:induction false} AddedOnce(pool: Pool, lines: seq<string>, inside: bool)
    requires Proper(pool) && !Named(Pools(Body(lines, {POOLS}, inside)), pool.name)
    requires inside || HeaderCount(lines, POOLS) > 0
    ensures Pools(Body(Edited(AddEditor(pool), lines, inside, Flag(pool.name, false)), {POOLS}, inside)) ==
            Insert(Pools(Body(lines, {POOLS}, inside)), FirstSection(lines, inside), pool)
  {
    hide IsHeader, Opens, Strip, PoolEntry, Proper, Named, Body, Pools, Flag, Edited;
    if lines == [] {
      AddedAtEnd(pool, inside);
    } else {
      var raw, rest := lines[0], lines[1..];
      var in' := Next(raw, {POOLS}, inside);
      AddedStep(pool, lines, inside);
      FirstSectionListed(rest, in');
      if inside && IsHeader(raw) {
        AddedBefore(pool, rest, in');
        assert [] + Pools(Body(rest, {POOLS}, in')) == Pools(Body(rest, {POOLS}, in'));
        assert Insert(Pools(Body(rest, {POOLS}, in')), 0, pool) == [pool] + Pools(Body(rest, {POOLS}, in'));
      } else {
        AddedOnce(pool, rest, in');
        InsertShift(if inside && PoolEntry(Strip(raw)).Some? then [PoolEntry(Strip(raw)).value] else [],
                    Pools(Body(rest, {POOLS}, in')), FirstSection(rest, in'), pool);
      }
    }
  }

  lemma EntryListed(pool: Pool)
    requires Proper(pool)
    ensures Pools(StripEach([pool.range + "," + pool.name])) == [pool]
  {
    hide Strip, PoolEntry, Proper;
    var entry := pool.range + "," + pool.name;
    EntryLine(pool);
    OnePool(Strip(entry));
    assert StripEach([entry]) == [Strip(entry)];
  }

  lemma InsertShift(head: seq<Pool>, pools: seq<Pool>, k: nat, pool: Pool)
    requires k <= |pools|
    ensures head + Insert(pools, k, pool) == Insert(head + pools, |head| + k, pool)
  {
    assert (head + pools)[..|head| + k] == head + pools[..k];
    assert (head + pools)[|head| + k..] == pools[k..];
  }

  lemma WrittenPools(pool: Pool, raw: string, inside: bool)
    requires Proper(pool)
    requires inside && !IsHeader(raw) && PoolEntry(Strip(raw)).Some? ==> PoolEntry(Strip(raw)).value.name != pool.name
    ensures Pools(Written(AddEditor(pool), raw, inside, Flag(pool.name, false))) ==
            if !inside then []
            else if IsHeader(raw) then [pool]
            else if PoolEntry(Strip(raw)).Some? then [PoolEntry(Strip(raw)).value]
            else []
  {
    hide IsHeader, Strip, PoolEntry, Emit, Missing, Proper, Flag;
    PoolPass(pool.name, [pool.range + "," + pool.name], false, raw, inside, false);
    EntryListed(pool);
    OnePool(Strip(raw));
    NoPools();
    assert StripEach([raw]) == [Strip(raw)];
    assert [] + [raw] == [raw];
  }

  function Others(pools: seq<Pool>, name: string): (r: seq<Pool>)
    ensures forall p :: p in r <==> p in pools && p.name != name
  {
    if pools == [] then [] else (if pools[0].name != name then [pools[0]] else []) + Others(pools[1..], name)
  }

  /** After a removal exactly the pools with other names are listed, in order. */
  lemma {:induction false} RemovedAll(name: string, lines: seq<string>, inside: bool, done: set<Pattern>)
    ensures Pools(Body(Edited(RemoveEditor(name), lines, inside, done), {POOLS}, inside)) ==
            Others(Pools(Body(lines, {POOLS}, inside)), name)
  {
    hide IsHeader, Opens, Strip, PoolEntry, Emit, Mark, Tidy, Orderly, Covers, Edited, Body, Pools, Written, Missing;
    var e := RemoveEditor(name);
    RemoveEditorTidy(name);
    OneMissing(e, e.slots[0], done);
    NoPools();
    if lines == [] {
      BodyOfEditedEnd(e, inside, done);
      NothingLeft(lines, {POOLS}, inside);
      assert lines[|lines|..] == lines && StripEach([]) == [];
    } else {
      var raw, rest := lines[0], lines[1..];
      var in', done' := Next(raw, {POOLS}, inside), Mark(e, raw, inside, done);
      BodyOfEdited(e, lines, inside, done);
      RemovedPass(name, raw, inside, done);
      PoolsStep(lines, 0, inside);
      assert lines[0..] == lines;
      RemovedAll(name, rest, in', done');
      PoolsAppend(Written(e, raw, inside, done), Body(Edited(e, rest, in', done'), {POOLS}, in'));
      var entry, tail := PoolEntry(Strip(raw)), Pools(Body(rest, {POOLS}, in'));
      if entry.Some? {
        assert ([entry.value] + tail)[1..] == tail;
      }
      assert [] + tail == tail;
    }
  }

  lemma RemovedPass(name: string, raw: string, inside: bool, done: set<Pattern>)
    ensures var entry := PoolEntry(Strip(raw));
            Pools(Written(RemoveEditor(name), raw, inside, done)) ==
            if inside && !IsHeader(raw) && entry.Some? && entry.value.name != name then [entry.value] else []
  {
    hide IsHeader, Strip, PoolEntry;
    var e := RemoveEditor(name);
    OneMissing(e, e.slots[0], done);
    PoolOwned(e, name, [], Strip(raw));
    OnePool(Strip(raw));
    NoPools();
    assert StripEach([raw]) == [Strip(raw)];
    assert StripEach([]) == [];
  }

  // ---------------------------------------------------------------------------
  // Distinct names, over every run
  // ---------------------------------------------------------------------------

  predicate DistinctNames(pools: seq<Pool>) {
    forall i, j :: 0 <= i < j < |pools| ==> pools[i].name != pools[j].name
  }

  datatype Request = Add(pool: Pool, now: string) | Remove(name: string, now: string)

  function Serve(s: State, r: Request): State {
    match r
    case Add(pool, now) => AddedState(s, pool, now)
    case Remove(name, now) => RemovedState(s, name, now)
  }

  function ServeAll(s: State, rs: seq<Request>): State
    decreases |rs|
  {
    if rs == [] then s else ServeAll(Serve(s, rs[0]), rs[1..])
  }

  function Listed(s: State): seq<Pool> {
    if s.file.None? then [] else ReadPools(SplitLines(s.file.value))
  }

  lemma InsertKeepsDistinct(pools: seq<Pool>, k: nat, pool: Pool)
    requires DistinctNames(pools) && !Named(pools, pool.name)
    ensures DistinctNames(Insert(pools, k, pool))
  {
    if k <= |pools| {
      var r := Insert(pools, k, pool);
      forall i, j | 0 <= i < j < |r|
        ensures r[i].name != r[j].name
      {
        var a, b := if i < k then i else i - 1, if j < k then j else j - 1;
        assert i != k ==> r[i] == pools[a] && pools[a] in pools;
        assert j != k ==> r[j] == pools[b] && pools[b] in pools;
      }
    }
  }

  lemma {:induction false} OthersKeepDistinct(pools: seq<Pool>, name: string)
    requires DistinctNames(pools)
    ensures DistinctNames(Others(pools, name))
  {
    if pools != [] {
      OthersKeepDistinct(pools[1..], name);
      assert forall p :: p in pools[1..] ==> p.name != pools[0].name;
    }
  }

  lemma ServeKeepsDistinct(s: State, r: Request)
    requires r.Add? ==> Proper(r.pool)
    requires DistinctNames(Listed(s))
    ensures DistinctNames(Listed(Serve(s, r)))
  {
    hide ReadPools, DistinctNames, RangeAccepted, SplitLines, Edit, Proper, Named, EditFile, Orderly, Covers, Tidy;
    if s.file.Some? && Serve(s, r) != s {
      var lines := SplitLines(s.file.value);
      match r
      case Add(pool, now) =>
        AddEditorTidy(pool);
        EditFileLines(AddEditor(pool), s, now);
        InsertKeepsDistinct(ReadPools(lines), FirstSection(lines, false), pool);
        ListedAfterAdd(pool, lines);
      case Remove(name, now) =>
        RemoveEditorTidy(name);
        EditFileLines(RemoveEditor(name), s, now);
        OthersKeepDistinct(ReadPools(lines), name);
        ListedAfterRemove(name, lines);
    }
  }

  /** What `list_pools` gives after `add_pool`. */
  lemma ListedAfterAdd(pool: Pool, lines: seq<string>)
    requires Proper(pool) && !Named(ReadPools(lines), pool.name)
    ensures ReadPools(Edit(AddEditor(pool), lines)) ==
            if HeaderCount(lines, POOLS) > 0 then Insert(ReadPools(lines), FirstSection(lines, false), pool)
            else ReadPools(lines)
  {
    if HeaderCount(lines, POOLS) > 0 {
      assert Flag(pool.name, false) == {};
      AddedOnce(pool, lines, false);
    } else {
      NoSectionNoEdit(AddEditor(pool), lines, {});
    }
  }

  /** What `list_pools` gives after `remove_pool`. */
  lemma ListedAfterRemove(name: string, lines: seq<string>)
    ensures ReadPools(Edit(RemoveEditor(name), lines)) == Others(ReadPools(lines), name)
  {
    RemovedAll(name, lines, false, {});
  }

  /** Pool names stay distinct over every run of additions and removals. */
  lemma {:induction false} NamesStayDistinct(s: State, rs: seq<Request>)
    requires forall r :: r in rs && r.Add? ==> Proper(r.pool)
    requires DistinctNames(Listed(s))
    ensures DistinctNames(Listed(ServeAll(s, rs)))
    decreases |rs|
  {
    hide DistinctNames, Listed, Proper, Serve;
    if rs != [] {
      assert rs[0] in rs;
      ServeKeepsDistinct(s, rs[0]);
      NamesStayDistinct(Serve(s, rs[0]), rs[1..]);
    }
  }

  lemma {:induction false} ListedOneLine(body: seq<string>, p: Pool)
    requires OneLineEach(body) && p in Pools(body)
    ensures OneLine(p.range)
  {
    hide RangeEnd, Strip;
    if PoolEntry(body[0]).Some? && p == PoolEntry(body[0]).value {
      assert body[0] in body;
    } else {
      ListedOneLine(body[1..], p);
    }
  }

  /** A range is accepted with a final line feed, but then no text lists the pool asked for:
      the file gets the range and the name on separate lines. */
  lemma FinalLineFeed(pool: Pool, text: string)
    requires RangeAccepted(pool.range) && !RangeShaped(pool.range)
    ensures pool !in ReadPools(SplitLines(text))
  {
    hide RangeShaped, Body, Pools;
    if pool in ReadPools(SplitLines(text)) {
      BodyOneLine(SplitLines(text), {POOLS}, false);
      ListedOneLine(Body(SplitLines(text), {POOLS}, false), pool);
    }
  }

  /** So what an addition lists is the pool asked for exactly if its range has no line feed. */
  lemma AddedAsAskedIff(pool: Pool, text: string)
    requires RangeAccepted(pool.range) && ProperName(pool.name)
    requires !Named(ReadPools(SplitLines(text)), pool.name) && HeaderCount(SplitLines(text), POOLS) > 0
    ensures pool in ReadPools(SplitLines(EditText(AddEditor(pool), text))) <==> RangeShaped(pool.range)
  {
    hide RangeAccepted, RangeShaped, ReadPools, Edited, Named, HeaderCount, ProperName, SplitLines, Orderly, Covers, Tidy;
    var lines := SplitLines(text);
    if RangeShaped(pool.range) {
      AddEditorTidy(pool);
      NotEmptyText(text);
      SplitEditText(AddEditor(pool), text);
      ListedAfterAdd(pool, lines);
      FirstSectionListed'(lines);
    } else {
      FinalLineFeed(pool, EditText(AddEditor(pool), text));
    }
  }

  lemma FirstSectionListed'(lines: seq<string>)
    ensures FirstSection(lines, false) <= |ReadPools(lines)|
  {
    FirstSectionListed(lines, false);
  }

  lemma NotEmptyText(text: string)
    requires HeaderCount(SplitLines(text), POOLS) > 0
    ensures text != ""
  {
  }
}
