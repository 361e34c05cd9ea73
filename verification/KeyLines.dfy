/** `key = value` settings: how the last one of a section is read, and the editors that
    set them. The connection limits, the PADO delay and the PPPoE runtime settings are
    three uses of both. */
module KeyLines {
  import opened Text
  import opened Patterns
  import opened Sections

  const PPPOE := "[pppoe]"

  // ---------------------------------------------------------------------------
  // Reading: the last occurrence wins
  // ---------------------------------------------------------------------------

  /** `line` sets `key`; a numeric reader also wants digits at the front of the value. */
  predicate Sets(line: string, key: string, numeric: bool) {
    HasKey(line, key) && (numeric ==> LeadingNat(ValueOf(line)).Some?)
  }

  function LastLine(body: seq<string>, key: string, numeric: bool): (r: Option<string>)
    ensures r.Some? ==> r.value in body && Sets(r.value, key, numeric)
    ensures r.None? ==> forall l :: l in body ==> !Sets(l, key, numeric)
  {
    if body == [] then None
    else
      match LastLine(body[1..], key, numeric)
      case Some(l) => Some(l)
      case None => if Sets(body[0], key, numeric) then Some(body[0]) else None
  }

  /** The number a setting has, or `default`. */
  function NumberIn(body: seq<string>, key: string, default: nat): nat {
    match LastLine(body, key, true)
    case None => default
    case Some(l) => LeadingNat(ValueOf(l)).value
  }

  /** The text a setting has, or `default`. */
  function TextIn(body: seq<string>, key: string, default: string): string {
    match LastLine(body, key, false)
    case None => default
    case Some(l) => ValueOf(l)
  }

  /** `int(val) if val.isdigit() else default` */
  function DigitsOr(value: string, default: nat): nat {
    if value != "" && AllDigits(value) then ParseNat(value) else default
  }

  /** The whole number a setting has: `fallback` if its value is not all digits,
      `default` if it does not occur. */
  function WholeIn(body: seq<string>, key: string, fallback: nat, default: nat): nat {
    match LastLine(body, key, false)
    case None => default
    case Some(l) => DigitsOr(ValueOf(l), fallback)
  }

  /** Reading one more line of a section at a time. */
  lemma LastLineStep(lines: seq<string>, names: set<string>, inside: bool, key: string, numeric: bool)
    requires lines != []
    ensures var raw := lines[0];
            var later := LastLine(Body(lines[1..], names, Next(raw, names, inside)), key, numeric);
            LastLine(Body(lines, names, inside), key, numeric) ==
            if later.Some? then later
            else if inside && !IsHeader(raw) && Sets(Strip(raw), key, numeric) then Some(Strip(raw))
            else None
  {
    hide IsHeader, Opens, Strip, Sets;
    var rest := Body(lines[1..], names, Next(lines[0], names, inside));
    assert [] + rest == rest && ([Strip(lines[0])] + rest)[1..] == rest;
  }

  /** A scanning loop that keeps the number found so far. */
  lemma NumberStep(lines: seq<string>, i: nat, names: set<string>, inside: bool, key: string, found: nat)
    requires i < |lines| && KeyName(key)
    ensures var raw := lines[i];
            var hit := if inside && !IsHeader(raw) then MatchNumber(Strip(raw), key) else None;
            NumberIn(Body(lines[i..], names, inside), key, found) ==
            NumberIn(Body(lines[i + 1..], names, Next(raw, names, inside)), key, if hit.Some? then hit.value else found)
  {
    hide IsHeader, Opens, Strip, MatchNumber, LeadingNat, LastLine, HasKey, ValueOf, Body;
    assert lines[i..][1..] == lines[i + 1..];
    LastLineStep(lines[i..], names, inside, key, true);
    MatchNumberIsLeading(Strip(lines[i]), key);
  }

  /** A scanning loop that keeps the text found so far. */
  lemma TextStep(lines: seq<string>, i: nat, names: set<string>, inside: bool, key: string, found: string)
    requires i < |lines|
    ensures var raw := lines[i];
            var hit := inside && !IsHeader(raw) && HasKey(Strip(raw), key);
            TextIn(Body(lines[i..], names, inside), key, found) ==
            TextIn(Body(lines[i + 1..], names, Next(raw, names, inside)), key, if hit then ValueOf(Strip(raw)) else found)
  {
    hide IsHeader, Opens, Strip, LastLine, HasKey, ValueOf, Body;
    assert lines[i..][1..] == lines[i + 1..];
    LastLineStep(lines[i..], names, inside, key, false);
  }

  /** A scanning loop that keeps the whole number found so far. */
  lemma WholeStep(
      lines: seq<string>, i: nat, names: set<string>, inside: bool, key: string, fallback: nat, found: nat)
    requires i < |lines|
    ensures var raw := lines[i];
            var hit := inside && !IsHeader(raw) && HasKey(Strip(raw), key);
            WholeIn(Body(lines[i..], names, inside), key, fallback, found) ==
            WholeIn(Body(lines[i + 1..], names, Next(raw, names, inside)), key, fallback,
                    if hit then DigitsOr(ValueOf(Strip(raw)), fallback) else found)
  {
    hide IsHeader, Opens, Strip, LastLine, HasKey, ValueOf, Body, DigitsOr;
    assert lines[i..][1..] == lines[i + 1..];
    LastLineStep(lines[i..], names, inside, key, false);
  }

  /** A comment sets no key. */
  lemma CommentSetsNothing(line: string, key: string)
    requires Trimmed(line) && line != "" && line[0] == '#' && KeyName(key)
    ensures !HasKey(line, key)
  {
    var before := line[..Find(line, '=')];
    assert HasEq(line) ==> before[0] == '#' && FirstVisible(before, 0) == 0;
    assert HasEq(line) && Strip(before) != "" ==> Lower(Strip(before))[0] == '#';
  }

  lemma NothingLeft(lines: seq<string>, names: set<string>, inside: bool)
    ensures Body(lines[|lines|..], names, inside) == []
    ensures forall key, d :: NumberIn([], key, d) == d
    ensures forall key, d :: TextIn([], key, d) == d
    ensures forall key, f, d :: WholeIn([], key, f, d) == d
  {
  }

  lemma {:induction false} LastLineOfKept(body: seq<string>, key: string, numeric: bool)
    ensures LastLine(Keep(body, Key(key)), key, numeric) == LastLine(body, key, numeric)
  {
    if body != [] {
      LastLineOfKept(body[1..], key, numeric);
      var rest := Keep(body[1..], Key(key));
      assert [] + rest == rest && ([body[0]] + rest)[1..] == rest;
    }
  }

  // ---------------------------------------------------------------------------
  // Editing: set some keys, delete others
  // ---------------------------------------------------------------------------

  /** Give `key` a value, or delete it. */
  datatype Update = Update(key: string, value: Option<string>)

  function SlotOf(u: Update): Slot {
    Slot(Key(u.key), if u.value.Some? then [u.key + "=" + u.value.value] else [], false)
  }

  function SlotsOf(us: seq<Update>): (slots: seq<Slot>)
    ensures |slots| == |us|
    ensures forall i :: 0 <= i < |us| ==> slots[i] == SlotOf(us[i])
  {
    if us == [] then [] else [SlotOf(us[0])] + SlotsOf(us[1..])
  }

  function KeyEditor(us: seq<Update>, reset: bool): Editor {
    Editor(PPPOE, SlotsOf(us), reset)
  }

  /** Set the key if a value is given, else leave it alone. */
  function Optional(key: string, value: Option<string>): seq<Update> {
    if value.Some? then [Update(key, value)] else []
  }

  lemma OptionalSlots(key: string, value: Option<string>, line: string, done: set<Pattern>)
    ensures SlotFor(SlotsOf(Optional(key, value)), line) ==
            if value.Some? && HasKey(line, key) then Some(SlotOf(Update(key, value))) else None
    ensures Missing(SlotsOf(Optional(key, value)), done) ==
            if value.Some? && Key(key) !in done then [key + "=" + value.value] else []
  {
    hide HasKey;
    if value.Some? {
      var slots := SlotsOf(Optional(key, value));
      assert slots == [SlotOf(Update(key, value))];
      assert slots[1..] == [];
    }
  }

  lemma {:induction false} SlotsOfAppend(a: seq<Update>, b: seq<Update>)
    ensures SlotsOf(a + b) == SlotsOf(a) + SlotsOf(b)
  {
    if a == [] {
      assert a + b == b;
    } else {
      assert (a + b)[1..] == a[1..] + b;
      SlotsOfAppend(a[1..], b);
    }
  }

  lemma SlotsAppend(a: seq<Update>, b: seq<Update>, line: string, done: set<Pattern>)
    ensures SlotFor(SlotsOf(a + b), line) ==
            if SlotFor(SlotsOf(a), line).Some? then SlotFor(SlotsOf(a), line) else SlotFor(SlotsOf(b), line)
    ensures Missing(SlotsOf(a + b), done) == Missing(SlotsOf(a), done) + Missing(SlotsOf(b), done)
  {
    hide SlotsOf, SlotFor, Missing;
    SlotsOfAppend(a, b);
    SlotForAppend(SlotsOf(a), SlotsOf(b), line);
    MissingAppend(SlotsOf(a), SlotsOf(b), done);
  }

  predicate Proper(us: seq<Update>) {
    && (forall i, j :: 0 <= i < j < |us| ==> us[i].key != us[j].key)
    && (forall u :: u in us ==> KeyName(u.key) && (u.value.Some? ==> OneLine(u.value.value)))
  }

  predicate Updates(us: seq<Update>, key: string) {
    exists u :: u in us && u.key == key
  }

  lemma KeyOwned(us: seq<Update>, reset: bool, line: string)
    ensures Owned(KeyEditor(us, reset), line) <==> HasEq(line) && Updates(us, KeyOf(line))
  {
    hide HasEq, KeyOf;
    var slots := SlotsOf(us);
    if HasEq(line) && Updates(us, KeyOf(line)) {
      var u :| u in us && u.key == KeyOf(line);
      var i :| 0 <= i < |us| && us[i] == u;
      assert slots[i] in slots && Matches(slots[i].pat, line);
    }
    if Owned(KeyEditor(us, reset), line) {
      var i :| 0 <= i < |slots| && slots[i] == SlotFor(slots, line).value;
      assert us[i] in us;
    }
  }

  /** The slot that answers for a line is the one of its key. */
  lemma KeySlot(us: seq<Update>, reset: bool, line: string, u: Update)
    requires Proper(us) && u in us && HasKey(line, u.key)
    ensures SlotFor(KeyEditor(us, reset).slots, line) == Some(SlotOf(u))
  {
    hide HasEq, KeyOf, SlotFor, KeyName, OneLine;
    var slots := SlotsOf(us);
    var k :| 0 <= k < |us| && us[k] == u;
    assert slots[k] in slots && Matches(slots[k].pat, line);
    assert SlotFor(slots, line).Some?;
    var i :| 0 <= i < |slots| && slots[i] == SlotFor(slots, line).value;
    assert us[i].key == KeyOf(line) == us[k].key;
    assert i == k;
  }

  lemma WrittenIsPlain(key: string, value: string)
    requires KeyName(key) && OneLine(value)
    ensures var x := key + "=" + value; OneLine(x) && !IsHeader(x)
  {
    hide Strip, RStrip, ValueOf, HasKey;
    WrittenKeyLine(key, value);
    assert (key + "=" + RStrip(value))[0] == key[0];
    OneLineAppend(key, "=");
    OneLineAppend(key + "=", value);
  }

  lemma KeyEditorTidy(us: seq<Update>, reset: bool)
    requires Proper(us)
    ensures Tidy(KeyEditor(us, reset)) && Repeatable(KeyEditor(us, reset))
    ensures Orderly(KeyEditor(us, reset)) && Covers(KeyEditor(us, reset), KeyEditor(us, reset))
  {
    hide Strip, IsHeader, HasKey, OneLine, SlotFor, Matches, Covers, Orderly;
    var e := KeyEditor(us, reset);
    forall s | s in e.slots
      ensures OwnLines(e, s.lines) && FillsOnly(e, s) && |s.lines| <= 1
    {
      var i :| 0 <= i < |us| && e.slots[i] == s;
      UpdateTidy(us, reset, us[i]);
    }
    TidyCovers(e);
  }

  lemma UpdateTidy(us: seq<Update>, reset: bool, u: Update)
    requires Proper(us) && u in us
    ensures var e := KeyEditor(us, reset);
            OwnLines(e, SlotOf(u).lines) && FillsOnly(e, SlotOf(u))
  {
    hide Strip, IsHeader, HasKey, OneLine, SlotFor, Matches, KeyEditor;
    if u.value.Some? {
      WrittenKeyLine(u.key, u.value.value);
      WrittenIsPlain(u.key, u.value.value);
      KeySlot(us, reset, Strip(u.key + "=" + u.value.value), u);
    }
  }

  /** A key the editor does not update is read as before. */
  lemma OtherKeyUndisturbed(
      us: seq<Update>, reset: bool, lines: seq<string>, names: set<string>, key: string, numeric: bool)
    requires Proper(us) && (PPPOE in names ==> !Updates(us, key))
    ensures LastLine(Body(Edit(KeyEditor(us, reset), lines), names, false), key, numeric)
            == LastLine(Body(lines, names, false), key, numeric)
  {
    hide Body, HasEq, KeyOf, Edit, LastLine, Keep, Updates, Covers, Orderly;
    var e := KeyEditor(us, reset);
    KeyEditorTidy(us, reset);
    forall l {:trigger Matches(Key(key), l)} | Owned(e, l)
      ensures PPPOE in names ==> !Matches(Key(key), l)
    {
      KeyOwned(us, reset, l);
    }
    ReaderUndisturbed(e, e, lines, names, Key(key));
    LastLineOfKept(Body(lines, names, false), key, numeric);
    LastLineOfKept(Body(Edit(e, lines), names, false), key, numeric);
  }

  /** A key the editor updates is read as it was set, if the section occurs at all. */
  lemma UpdateReadBack(us: seq<Update>, reset: bool, lines: seq<string>, u: Update, numeric: bool)
    requires Proper(us) && u in us && HeaderCount(lines, PPPOE) > 0
    ensures var r := LastLine(Body(Edit(KeyEditor(us, reset), lines), {PPPOE}, false), u.key, numeric);
            if u.value.None? || (numeric && LeadingNat(Strip(u.value.value)).None?) then r == None
            else r.Some? && ValueOf(r.value) == Strip(u.value.value)
  {
    hide Body, HasEq, KeyOf, ValueOf, Strip, LeadingNat, IsHeader, Covers, Orderly;
    var e := KeyEditor(us, reset);
    KeyEditorTidy(us, reset);
    var body := Body(Edit(e, lines), {PPPOE}, false);
    assert forall l :: l in body && HasKey(l, u.key) ==> l in StripEach(SlotOf(u).lines) by {
      forall l | l in body && HasKey(l, u.key)
        ensures l in StripEach(SlotOf(u).lines)
      {
        KeySlot(us, reset, l, u);
        OnlyWritten(e, lines, false, {}, l);
      }
    }
    if u.value.Some? {
      var x := u.key + "=" + u.value.value;
      var i :| 0 <= i < |us| && us[i] == u;
      assert SlotOf(u) in e.slots && x in SlotOf(u).lines;
      WrittenPresent(e, lines, false, {}, SlotOf(u), x);
      WrittenKeyLine(u.key, u.value.value);
      assert StripEach([x]) == [Strip(x)];
    }
  }
}
