/** The shape shared by every editor of accel-ppp.conf: scan the lines, and inside one
    section replace the owned lines and inject the missing ones where the section ends.

    An `Editor` is the data that tells the editors apart. `Edited` is the one-pass meaning;
    the services' loops are proved equal to it, and its properties are proved here once. */
module Sections {
  import opened Text
  import opened Patterns

  // ---------------------------------------------------------------------------
  // Sections and what a reader sees of them
  // ---------------------------------------------------------------------------

  predicate IsHeader(raw: string) {
    var line := Strip(raw);
    line != "" && line[0] == '['
  }

  /** The header line `raw` opens one of the named sections. */
  predicate Opens(raw: string, names: set<string>) {
    Lower(Strip(raw)) in names
  }

  /** Whether the scan is inside one of the named sections after `raw`. */
  predicate Next(raw: string, names: set<string>, inside: bool) {
    if IsHeader(raw) then Opens(raw, names) else inside
  }

  /** What a reader takes from one line. */
  function Content(raw: string, inside: bool): seq<string> {
    if inside && !IsHeader(raw) then [Strip(raw)] else []
  }

  /** The trimmed lines inside the named sections, in file order. */
  function Body(lines: seq<string>, names: set<string>, inside: bool): seq<string> {
    if lines == [] then []
    else Content(lines[0], inside) + Body(lines[1..], names, Next(lines[0], names, inside))
  }

  /** Whether the scan is inside one of the named sections after all of `lines`. */
  predicate End(lines: seq<string>, names: set<string>, inside: bool) {
    if lines == [] then inside else End(lines[1..], names, Next(lines[0], names, inside))
  }

  predicate NoHeaders(lines: seq<string>) {
    forall l :: l in lines ==> !IsHeader(l)
  }

  lemma {:induction false} EndAppend(a: seq<string>, b: seq<string>, names: set<string>, inside: bool)
    ensures End(a + b, names, inside) == End(b, names, End(a, names, inside))
  {
    hide IsHeader, Opens;
    if a == [] {
      assert a + b == b;
    } else {
      assert (a + b)[1..] == a[1..] + b;
      EndAppend(a[1..], b, names, Next(a[0], names, inside));
    }
  }

  lemma {:induction false} EndWithoutHeaders(lines: seq<string>, names: set<string>, inside: bool)
    requires NoHeaders(lines)
    ensures End(lines, names, inside) == inside
  {
    hide IsHeader, Opens;
    if lines != [] {
      assert lines[0] in lines;
      EndWithoutHeaders(lines[1..], names, inside);
    }
  }

  lemma {:induction false} BodyAppend(a: seq<string>, b: seq<string>, names: set<string>, inside: bool)
    ensures Body(a + b, names, inside) == Body(a, names, inside) + Body(b, names, End(a, names, inside))
  {
    hide IsHeader, Opens, Content;
    if a == [] {
      assert a + b == b;
    } else {
      assert (a + b)[1..] == a[1..] + b;
      BodyAppend(a[1..], b, names, Next(a[0], names, inside));
    }
  }

  lemma {:induction false} BodyOneLine(lines: seq<string>, names: set<string>, inside: bool)
    requires OneLineEach(lines)
    ensures OneLineEach(Body(lines, names, inside))
  {
    hide Strip, IsHeader, Opens, OneLine;
    if lines != [] {
      assert forall l :: l in lines[1..] ==> l in lines;
      BodyOneLine(lines[1..], names, Next(lines[0], names, inside));
      assert lines[0] in lines;
      OneLineStrip(lines[0]);
    }
  }

  /** How many headers open the section. */
  function HeaderCount(lines: seq<string>, section: string): nat {
    if lines == [] then 0
    else (if IsHeader(lines[0]) && Opens(lines[0], {section}) then 1 else 0)
         + HeaderCount(lines[1..], section)
  }

  lemma {:induction false} NoHeaderNoBody(lines: seq<string>, section: string)
    requires HeaderCount(lines, section) == 0
    ensures Body(lines, {section}, false) == []
  {
    if lines != [] {
      NoHeaderNoBody(lines[1..], section);
    }
  }

  // ---------------------------------------------------------------------------
  // Editors
  // ---------------------------------------------------------------------------

  /** Lines written in place of those matching `pat`: in place of each, or only of the
      first one since the flags were cleared; and at the end of a section without any. */
  datatype Slot = Slot(pat: Pattern, lines: seq<string>, once: bool)

  /** `reset`: the "already written" flags are cleared at every section header. */
  datatype Editor = Editor(section: string, slots: seq<Slot>, reset: bool)

  function SlotFor(slots: seq<Slot>, line: string): (r: Option<Slot>)
    ensures r.Some? ==> r.value in slots && Matches(r.value.pat, line)
    ensures r.None? ==> forall s :: s in slots ==> !Matches(s.pat, line)
  {
    if slots == [] then None
    else if Matches(slots[0].pat, line) then Some(slots[0])
    else SlotFor(slots[1..], line)
  }

  predicate Owned(e: Editor, line: string) {
    SlotFor(e.slots, line).Some?
  }

  /** The lines of the slots that have not been written since the flags were cleared. */
  function Missing(slots: seq<Slot>, done: set<Pattern>): seq<string> {
    if slots == [] then []
    else (if slots[0].pat in done then [] else slots[0].lines) + Missing(slots[1..], done)
  }

  lemma {:induction false} SlotForAppend(a: seq<Slot>, b: seq<Slot>, line: string)
    ensures SlotFor(a + b, line) == if SlotFor(a, line).Some? then SlotFor(a, line) else SlotFor(b, line)
  {
    hide Matches;
    if a == [] {
      assert a + b == b;
    } else {
      assert (a + b)[1..] == a[1..] + b;
      SlotForAppend(a[1..], b, line);
    }
  }

  lemma {:induction false} MissingAppend(a: seq<Slot>, b: seq<Slot>, done: set<Pattern>)
    ensures Missing(a + b, done) == Missing(a, done) + Missing(b, done)
  {
    if a == [] {
      assert a + b == b;
    } else {
      assert (a + b)[1..] == a[1..] + b;
      MissingAppend(a[1..], b, done);
    }
  }

  function AllPatterns(e: Editor): set<Pattern> {
    set s | s in e.slots :: s.pat
  }

  /** What the editor writes for one line. */
  function Emit(e: Editor, raw: string, inside: bool, done: set<Pattern>): seq<string> {
    if !inside then [raw]
    else if IsHeader(raw) then Missing(e.slots, done) + [raw]
    else
      match SlotFor(e.slots, Strip(raw))
      case None => [raw]
      case Some(slot) => if slot.once && slot.pat in done then [] else slot.lines
  }

  /** The flags after one line. */
  function Mark(e: Editor, raw: string, inside: bool, done: set<Pattern>): set<Pattern> {
    if IsHeader(raw) then
      if e.reset then {} else if inside then done + AllPatterns(e) else done
    else if !inside then done
    else
      match SlotFor(e.slots, Strip(raw))
      case None => done
      case Some(slot) => done + {slot.pat}
  }

  function Edited(e: Editor, lines: seq<string>, inside: bool, done: set<Pattern>): seq<string> {
    if lines == [] then
      if inside then Missing(e.slots, done) else []
    else
      Emit(e, lines[0], inside, done)
      + Edited(e, lines[1..], Next(lines[0], {e.section}, inside), Mark(e, lines[0], inside, done))
  }

  /** What the editor does to a list of lines. */
  function Edit(e: Editor, lines: seq<string>): seq<string> {
    Edited(e, lines, false, {})
  }

  predicate Hidden(e: Editor, raw: string, inside: bool) {
    inside && !IsHeader(raw) && Owned(e, Strip(raw))
  }

  /** The lines the editor does not own, in order. */
  function Visible(e: Editor, lines: seq<string>, inside: bool): seq<string> {
    if lines == [] then []
    else
      (if Hidden(e, lines[0], inside) then [] else [lines[0]])
      + Visible(e, lines[1..], Next(lines[0], {e.section}, inside))
  }

  predicate PlainLines(xs: seq<string>) {
    forall x :: x in xs ==> OneLine(x) && !IsHeader(x)
  }

  predicate OwnLines(e: Editor, xs: seq<string>) {
    forall x :: x in xs ==> OneLine(x) && !IsHeader(x) && Owned(e, Strip(x))
  }

  /** Slots are told apart by their patterns, each writes lines that are no headers, and none
      writes a line that another recognises. */
  predicate Orderly(e: Editor) {
    && (forall i, j :: 0 <= i < j < |e.slots| ==> e.slots[i].pat != e.slots[j].pat)
    && (forall s :: s in e.slots ==> PlainLines(s.lines) && FillsAtMost(e, s))
  }

  predicate FillsAtMost(e: Editor, s: Slot) {
    forall x :: x in s.lines && Owned(e, Strip(x)) ==> SlotFor(e.slots, Strip(x)) == Some(s)
  }

  /** Moreover the editor recognises every line it writes. */
  predicate Tidy(e: Editor) {
    && (forall i, j :: 0 <= i < j < |e.slots| ==> e.slots[i].pat != e.slots[j].pat)
    && (forall s :: s in e.slots ==> OwnLines(e, s.lines) && FillsOnly(e, s))
  }

  predicate FillsOnly(e: Editor, s: Slot) {
    forall x :: x in s.lines ==> SlotFor(e.slots, Strip(x)) == Some(s)
  }

  /** The mask `m` owns whatever `e` replaces or writes. */
  ghost predicate Covers(m: Editor, e: Editor) {
    && Orderly(e) && m.section == e.section
    && (forall l {:trigger Owned(e, l)} :: Owned(e, l) ==> Owned(m, l))
    && (forall s :: s in e.slots ==> OwnLines(m, s.lines))
  }

  lemma TidyCovers(e: Editor)
    requires Tidy(e)
    ensures Orderly(e) && Covers(e, e)
  {
    hide IsHeader, OneLine, SlotFor, Strip;
    forall s | s in e.slots
      ensures PlainLines(s.lines) && FillsAtMost(e, s)
    {
      assert OwnLines(e, s.lines) && FillsOnly(e, s);
    }
  }

  lemma {:induction false} MissingPlain(slots: seq<Slot>, done: set<Pattern>)
    requires forall s :: s in slots ==> PlainLines(s.lines)
    ensures PlainLines(Missing(slots, done)) && NoHeaders(Missing(slots, done))
  {
    if slots != [] {
      assert slots[0] in slots;
      MissingPlain(slots[1..], done);
    }
  }

  lemma {:induction false} MissingOwned(e: Editor, slots: seq<Slot>, done: set<Pattern>)
    requires forall s :: s in slots ==> OwnLines(e, s.lines)
    ensures OwnLines(e, Missing(slots, done))
  {
    if slots != [] {
      assert slots[0] in slots;
      MissingOwned(e, slots[1..], done);
    }
  }

  /** Whatever is written for a line, the scan goes on as after the line itself. */
  lemma EndOfEmit(
      e: Editor, raw: string, inside: bool, done: set<Pattern>, names: set<string>, reading: bool)
    requires Orderly(e)
    ensures End(Emit(e, raw, inside, done), names, reading) == Next(raw, names, reading)
  {
    hide IsHeader, Opens, Strip, Matches;
    var xs := Emit(e, raw, inside, done);
    assert [raw][1..] == [];
    if inside && IsHeader(raw) {
      MissingPlain(e.slots, done);
      EndWithoutHeaders(Missing(e.slots, done), names, reading);
      EndAppend(Missing(e.slots, done), [raw], names, reading);
    } else if inside && Owned(e, Strip(raw)) {
      EndWithoutHeaders(xs, names, reading);
    }
  }

  /** An editor leaves a file without its section alone. */
  lemma {:induction false} NoSectionNoEdit(e: Editor, lines: seq<string>, done: set<Pattern>)
    requires HeaderCount(lines, e.section) == 0
    ensures Edited(e, lines, false, done) == lines
  {
    hide IsHeader, Opens, Strip;
    if lines != [] {
      NoSectionNoEdit(e, lines[1..], Mark(e, lines[0], false, done));
    }
  }

  // ---------------------------------------------------------------------------
  // Other lines survive
  // ---------------------------------------------------------------------------

  lemma {:induction false} VisibleAppend(e: Editor, a: seq<string>, b: seq<string>, inside: bool)
    ensures Visible(e, a + b, inside) == Visible(e, a, inside) + Visible(e, b, End(a, {e.section}, inside))
  {
    hide IsHeader, Opens, Hidden;
    if a == [] {
      assert a + b == b;
    } else {
      assert (a + b)[1..] == a[1..] + b;
      VisibleAppend(e, a[1..], b, Next(a[0], {e.section}, inside));
    }
  }

  lemma {:induction false} VisibleOwned(e: Editor, xs: seq<string>)
    requires OwnLines(e, xs)
    ensures Visible(e, xs, true) == []
  {
    hide IsHeader, Opens, Strip, Matches;
    if xs != [] {
      assert xs[0] in xs;
      VisibleOwned(e, xs[1..]);
    }
  }

  lemma VisibleOne(e: Editor, raw: string, inside: bool)
    ensures Visible(e, [raw], inside) == if Hidden(e, raw, inside) then [] else [raw]
  {
    assert [raw][1..] == [];
  }

  lemma VisibleEmit(m: Editor, e: Editor, raw: string, inside: bool, done: set<Pattern>)
    requires Covers(m, e)
    ensures Visible(m, Emit(e, raw, inside, done), inside) == Visible(m, [raw], inside)
  {
    hide IsHeader, Opens, Strip, Matches, OneLine, SlotFor, Orderly;
    VisibleOne(m, raw, inside);
    if Hidden(e, raw, inside) {
      assert Owned(e, Strip(raw));
      VisibleOwned(m, Emit(e, raw, inside, done));
    } else if inside && IsHeader(raw) {
      var missing := Missing(e.slots, done);
      MissingOwned(m, e.slots, done);
      VisibleOwned(m, missing);
      VisibleAppend(m, missing, [raw], inside);
      EndWithoutHeaders(missing, {m.section}, inside);
    }
  }

  /** An editor keeps, in order, every line that a mask of it does not own. */
  lemma {:induction false} VisibleEdited(m: Editor, e: Editor, lines: seq<string>, inside: bool, done: set<Pattern>)
    requires Covers(m, e)
    ensures Visible(m, Edited(e, lines, inside, done), inside) == Visible(m, lines, inside)
  {
    hide IsHeader, Opens, Hidden, Emit, Mark, Strip, Matches, SlotFor, Orderly;
    if lines == [] {
      MissingOwned(m, e.slots, done);
      VisibleOwned(m, Missing(e.slots, done));
    } else {
      var in', done' := Next(lines[0], {e.section}, inside), Mark(e, lines[0], inside, done);
      var xs := Emit(e, lines[0], inside, done);
      VisibleAppend(m, xs, Edited(e, lines[1..], in', done'), inside);
      EndOfEmit(e, lines[0], inside, done, {e.section}, inside);
      VisibleEmit(m, e, lines[0], inside, done);
      VisibleOne(m, lines[0], inside);
      VisibleEdited(m, e, lines[1..], in', done');
    }
  }

  /** A reader that looks at lines matching `p` in the named sections cannot tell whether
      the lines an editor owns are there, unless it shares a section and a line with it. */
  lemma {:induction false} KeepVisible(
      e: Editor, lines: seq<string>, inside: bool, names: set<string>, reading: bool, p: Pattern)
    requires e.section in names ==> forall l {:trigger Matches(p, l)} :: Owned(e, l) ==> !Matches(p, l)
    requires inside && reading ==> e.section in names
    ensures Keep(Body(Visible(e, lines, inside), names, reading), p) == Keep(Body(lines, names, reading), p)
  {
    if lines != [] {
      hide IsHeader, Opens, Strip, SlotFor, Matches;
      var raw, rest := lines[0], lines[1..];
      var in', reading' := Next(raw, {e.section}, inside), Next(raw, names, reading);
      assert in' && reading' ==> e.section in names by {
        NextBoth(raw, e.section, names, inside, reading);
      }
      KeepVisible(e, rest, in', names, reading', p);
      KeepAppend(Content(raw, reading), Body(rest, names, reading'), p);
      var kept := if Hidden(e, raw, inside) then [] else [raw];
      assert Visible(e, lines, inside) == kept + Visible(e, rest, in');
      BodyAppend(kept, Visible(e, rest, in'), names, reading);
      BodyOne(raw, names, reading);
      KeepAppend(Body(kept, names, reading), Body(Visible(e, rest, in'), names, reading'), p);
      if Hidden(e, raw, inside) && reading {
        KeepNone(e, Strip(raw), p);
      }
    }
  }

  lemma BodyOne(raw: string, names: set<string>, reading: bool)
    ensures Body([raw], names, reading) == Content(raw, reading)
    ensures End([raw], names, reading) == Next(raw, names, reading)
  {
    assert [raw][1..] == [];
  }

  lemma KeepNone(e: Editor, line: string, p: Pattern)
    requires !Matches(p, line)
    ensures Keep([line], p) == []
  {
    assert [line][1..] == [];
  }

  lemma NextBoth(raw: string, section: string, names: set<string>, inside: bool, reading: bool)
    requires inside && reading ==> section in names
    ensures Next(raw, {section}, inside) && Next(raw, names, reading) ==> section in names
  {
  }

  /** ... so no such reader notices the edit. */
  lemma ReaderUndisturbed(m: Editor, e: Editor, lines: seq<string>, names: set<string>, p: Pattern)
    requires Covers(m, e)
    requires e.section in names ==> forall l {:trigger Matches(p, l)} :: Owned(m, l) ==> !Matches(p, l)
    ensures Keep(Body(Edit(e, lines), names, false), p) == Keep(Body(lines, names, false), p)
  {
    hide Covers, Keep, Body, Visible, Edited, Owned, Matches;
    assert m.section == e.section by {
      SameSection(m, e);
    }
    VisibleEdited(m, e, lines, false, {});
    KeepVisible(m, lines, false, names, false, p);
    KeepVisible(m, Edit(e, lines), false, names, false, p);
  }

  lemma SameSection(m: Editor, e: Editor)
    requires Covers(m, e)
    ensures m.section == e.section && Orderly(e)
  {
  }

  lemma {:induction false} HeaderCountAppend(a: seq<string>, b: seq<string>, section: string)
    ensures HeaderCount(a + b, section) == HeaderCount(a, section) + HeaderCount(b, section)
  {
    hide IsHeader, Opens;
    if a == [] {
      assert a + b == b;
    } else {
      assert (a + b)[1..] == a[1..] + b;
      HeaderCountAppend(a[1..], b, section);
    }
  }

  lemma {:induction false} PlainHasNoHeaders(xs: seq<string>, section: string)
    requires NoHeaders(xs)
    ensures HeaderCount(xs, section) == 0
  {
    if xs != [] {
      assert xs[0] in xs;
      PlainHasNoHeaders(xs[1..], section);
    }
  }

  lemma HeaderCountEmit(e: Editor, raw: string, inside: bool, done: set<Pattern>, section: string)
    requires Orderly(e)
    ensures HeaderCount(Emit(e, raw, inside, done), section) == HeaderCount([raw], section)
  {
    hide IsHeader, Opens, Strip, OneLine, FillsAtMost, HeaderCount;
    if inside && IsHeader(raw) {
      MissingPlain(e.slots, done);
      PlainHasNoHeaders(Missing(e.slots, done), section);
      HeaderCountAppend(Missing(e.slots, done), [raw], section);
    } else if Hidden(e, raw, inside) {
      PlainHasNoHeaders(Emit(e, raw, inside, done), section);
      PlainHasNoHeaders([raw], section);
    }
  }

  /** Headers survive, so sections are found again. */
  lemma {:induction false} HeaderCountEdited(e: Editor, lines: seq<string>, inside: bool, done: set<Pattern>, section: string)
    requires Orderly(e)
    ensures HeaderCount(Edited(e, lines, inside, done), section) == HeaderCount(lines, section)
  {
    hide IsHeader, Opens, Emit, Mark, Strip, FillsAtMost;
    if lines == [] {
      MissingPlain(e.slots, done);
      PlainHasNoHeaders(Missing(e.slots, done), section);
    } else {
      var in', done' := Next(lines[0], {e.section}, inside), Mark(e, lines[0], inside, done);
      HeaderCountEmit(e, lines[0], inside, done, section);
      HeaderCountAppend(Emit(e, lines[0], inside, done), Edited(e, lines[1..], in', done'), section);
      HeaderCountEdited(e, lines[1..], in', done', section);
      assert [lines[0]] + lines[1..] == lines;
      HeaderCountAppend([lines[0]], lines[1..], section);
    }
  }

  lemma HeaderCountEdit(e: Editor, lines: seq<string>, section: string)
    requires Orderly(e)
    ensures HeaderCount(Edit(e, lines), section) == HeaderCount(lines, section)
  {
    HeaderCountEdited(e, lines, false, {}, section);
  }

  // ---------------------------------------------------------------------------
  // Editors that own different lines commute
  // ---------------------------------------------------------------------------

  ghost predicate Apart(a: Editor, b: Editor) {
    a.section == b.section ==> forall l {:trigger Owned(a, l)} :: Owned(a, l) ==> !Owned(b, l)
  }

  lemma {:induction false} VisibleKept(b: Editor, xs: seq<string>, inside: bool)
    requires forall x :: x in xs ==> !IsHeader(x) && !(inside && Owned(b, Strip(x)))
    ensures Visible(b, xs, inside) == xs
  {
    hide IsHeader, Opens, Strip, SlotFor;
    if xs != [] {
      assert xs[0] in xs;
      VisibleKept(b, xs[1..], inside);
    }
  }

  lemma VisibleOfEmit(m: Editor, a: Editor, b: Editor, raw: string, inA: bool, inB: bool, done: set<Pattern>)
    requires Covers(m, a) && Apart(m, b)
    requires inA && inB ==> a.section == b.section
    ensures Visible(b, Emit(a, raw, inA, done), inB) == if Hidden(b, raw, inB) then [] else Emit(a, raw, inA, done)
    ensures Hidden(b, raw, inB) ==> Emit(a, raw, inA, done) == [raw] && Mark(a, raw, inA, done) == done
  {
    hide IsHeader, Opens, Strip, Matches, OneLine, Orderly;
    var xs := Emit(a, raw, inA, done);
    VisibleOne(b, raw, inB);
    if inA && IsHeader(raw) {
      var missing := Missing(a.slots, done);
      MissingOwned(m, a.slots, done);
      VisibleKept(b, missing, inB);
      VisibleAppend(b, missing, [raw], inB);
      EndWithoutHeaders(missing, {b.section}, inB);
    } else if Hidden(a, raw, inA) {
      assert Owned(a, Strip(raw)) && Owned(m, Strip(raw));
      VisibleKept(b, xs, inB);
    } else if Hidden(b, raw, inB) && inA {
      assert !Owned(a, Strip(raw));
    }
  }

  /** Hiding lines that an editor neither replaces nor writes commutes with running it. */
  lemma {:induction false} VisibleOfEdited(
      m: Editor, a: Editor, b: Editor, lines: seq<string>, inA: bool, inB: bool, done: set<Pattern>)
    requires Covers(m, a) && Apart(m, b)
    requires inA && inB ==> a.section == b.section
    ensures Visible(b, Edited(a, lines, inA, done), inB) == Edited(a, Visible(b, lines, inB), inA, done)
  {
    hide IsHeader, Opens, Strip, Matches, SlotFor, Emit, Mark, OneLine, Orderly;
    if lines == [] {
      if inA {
        MissingOwned(m, a.slots, done);
        VisibleKept(b, Missing(a.slots, done), inB);
      }
    } else {
      var raw, rest := lines[0], lines[1..];
      var inA', inB', done' := Next(raw, {a.section}, inA), Next(raw, {b.section}, inB), Mark(a, raw, inA, done);
      NextBoth(raw, a.section, {b.section}, inA, inB);
      VisibleOfEdited(m, a, b, rest, inA', inB', done');
      VisibleAppend(b, Emit(a, raw, inA, done), Edited(a, rest, inA', done'), inB);
      EndOfEmit(a, raw, inA, done, {b.section}, inB);
      VisibleOfEmit(m, a, b, raw, inA, inB, done);
      var seen := Visible(b, rest, inB');
      if Hidden(b, raw, inB) {
        assert Visible(b, lines, inB) == seen;
      } else {
        assert Visible(b, lines, inB) == [raw] + seen && ([raw] + seen)[1..] == seen;
      }
    }
  }

  /** Run in either order, two editors with different lines (as masks `m` and `n` tell) give
      texts that agree on every line but those of one of them, whichever one is disregarded. */
  lemma EditorsCommute(m: Editor, a: Editor, n: Editor, b: Editor, lines: seq<string>)
    requires Covers(m, a) && Covers(n, b) && Apart(m, n)
    ensures Visible(m, Edit(a, Edit(b, lines)), false) == Visible(m, Edit(b, Edit(a, lines)), false)
    ensures Visible(n, Edit(a, Edit(b, lines)), false) == Visible(n, Edit(b, Edit(a, lines)), false)
  {
    hide Covers, Edited, Visible;
    assert Apart(n, m) by {
      ApartBack(m, n);
    }
    VisibleAgrees(m, a, n, b, lines);
    VisibleAgrees(n, b, m, a, lines);
  }

  lemma ApartBack(a: Editor, b: Editor)
    requires Apart(a, b)
    ensures Apart(b, a)
  {
    hide SlotFor;
    forall l {:trigger Owned(b, l)} | b.section == a.section && Owned(b, l)
      ensures !Owned(a, l)
    {
      assert Owned(a, l) ==> !Owned(b, l);
    }
  }

  lemma VisibleAgrees(m: Editor, a: Editor, n: Editor, b: Editor, lines: seq<string>)
    requires Covers(m, a) && Covers(n, b) && Apart(m, n)
    ensures Visible(n, Edit(a, Edit(b, lines)), false) == Visible(n, Edit(b, Edit(a, lines)), false)
  {
    hide Covers, Edited, Visible, Apart;
    calc {
      Visible(n, Edit(a, Edit(b, lines)), false);
      { VisibleOfEdited(m, a, n, Edit(b, lines), false, false, {}); }
      Edit(a, Visible(n, Edit(b, lines), false));
      { VisibleEdited(n, b, lines, false, {}); }
      Edit(a, Visible(n, lines, false));
      { VisibleOfEdited(m, a, n, lines, false, false, {}); }
      Visible(n, Edit(a, lines), false);
      { VisibleEdited(n, b, Edit(a, lines), false, {}); }
      Visible(n, Edit(b, Edit(a, lines)), false);
    }
  }

  // ---------------------------------------------------------------------------
  // What was written is there, and nothing else of its kind
  // ---------------------------------------------------------------------------

  function StripEach(xs: seq<string>): (r: seq<string>)
    ensures |r| == |xs|
    ensures forall i :: 0 <= i < |xs| ==> r[i] == Strip(xs[i])
  {
    if xs == [] then [] else [Strip(xs[0])] + StripEach(xs[1..])
  }

  lemma {:induction false} BodyPlain(xs: seq<string>, names: set<string>, inside: bool)
    requires NoHeaders(xs)
    ensures Body(xs, names, inside) == if inside then StripEach(xs) else []
  {
    hide IsHeader, Opens, Strip;
    if xs != [] {
      assert xs[0] in xs;
      BodyPlain(xs[1..], names, inside);
    }
  }

  /** What a reader of the edited section takes from what the editor writes for one line. */
  function Written(e: Editor, raw: string, inside: bool, done: set<Pattern>): seq<string> {
    if !inside then []
    else if IsHeader(raw) then StripEach(Missing(e.slots, done))
    else StripEach(Emit(e, raw, inside, done))
  }

  lemma BodyOfEmit(e: Editor, raw: string, inside: bool, done: set<Pattern>)
    requires Orderly(e)
    ensures Body(Emit(e, raw, inside, done), {e.section}, inside) == Written(e, raw, inside, done)
  {
    hide IsHeader, Opens, Strip, Matches;
    BodyOne(raw, {e.section}, inside);
    if inside && IsHeader(raw) {
      var m := Missing(e.slots, done);
      MissingPlain(e.slots, done);
      BodyAppend(m, [raw], {e.section}, inside);
      BodyPlain(m, {e.section}, inside);
      EndWithoutHeaders(m, {e.section}, inside);
    } else if inside {
      BodyPlain(Emit(e, raw, inside, done), {e.section}, inside);
    }
  }

  /** The body of the edited section, one scanning step at a time. */
  lemma BodyOfEdited(e: Editor, lines: seq<string>, inside: bool, done: set<Pattern>)
    requires Orderly(e) && lines != []
    ensures var in' := Next(lines[0], {e.section}, inside);
            Body(Edited(e, lines, inside, done), {e.section}, inside) ==
            Written(e, lines[0], inside, done)
            + Body(Edited(e, lines[1..], in', Mark(e, lines[0], inside, done)), {e.section}, in')
  {
    hide IsHeader, Opens, Strip, Matches, Emit, Mark, Next;
    var raw := lines[0];
    var in' := Next(raw, {e.section}, inside);
    var rest := Edited(e, lines[1..], in', Mark(e, raw, inside, done));
    BodyAppend(Emit(e, raw, inside, done), rest, {e.section}, inside);
    EndOfEmit(e, raw, inside, done, {e.section}, inside);
    BodyOfEmit(e, raw, inside, done);
  }

  lemma BodyOfEditedEnd(e: Editor, inside: bool, done: set<Pattern>)
    requires Orderly(e)
    ensures Body(Edited(e, [], inside, done), {e.section}, inside) ==
            if inside then StripEach(Missing(e.slots, done)) else []
  {
    MissingPlain(e.slots, done);
    BodyPlain(Missing(e.slots, done), {e.section}, inside);
  }

  lemma {:induction false} MissingFills(e: Editor, slots: seq<Slot>, done: set<Pattern>)
    requires Orderly(e) && forall s :: s in slots ==> s in e.slots
    ensures forall x :: x in Missing(slots, done) && Owned(e, Strip(x)) ==> x in SlotFor(e.slots, Strip(x)).value.lines
  {
    hide IsHeader, Strip, Matches;
    if slots != [] {
      assert slots[0] in slots && FillsAtMost(e, slots[0]);
      MissingFills(e, slots[1..], done);
    }
  }

  lemma WrittenByOwner(e: Editor, raw: string, inside: bool, done: set<Pattern>, l: string)
    requires Orderly(e) && l in Written(e, raw, inside, done) && Owned(e, l)
    ensures l in StripEach(SlotFor(e.slots, l).value.lines)
  {
    hide IsHeader, Opens, Strip, Matches, SlotFor, OneLine;
    var xs := if IsHeader(raw) then Missing(e.slots, done) else Emit(e, raw, inside, done);
    var i :| 0 <= i < |xs| && Strip(xs[i]) == l;
    MissingFills(e, e.slots, done);
    if !IsHeader(raw) {
      assert xs[i] in xs && SlotFor(e.slots, Strip(raw)).Some?;
      assert FillsAtMost(e, SlotFor(e.slots, Strip(raw)).value);
    }
    StripEachHas(SlotFor(e.slots, l).value.lines, xs[i]);
  }

  /** Every line of an edited section that the editor owns is one it wrote. */
  lemma {:induction false} OnlyWritten(
      e: Editor, lines: seq<string>, inside: bool, done: set<Pattern>, l: string)
    requires Orderly(e)
    requires l in Body(Edited(e, lines, inside, done), {e.section}, inside) && Owned(e, l)
    ensures l in StripEach(SlotFor(e.slots, l).value.lines)
  {
    hide IsHeader, Opens, Strip, SlotFor, Matches, Emit, Mark, Written;
    if lines == [] {
      BodyOfEditedEnd(e, inside, done);
      MissingFills(e, e.slots, done);
      var m := Missing(e.slots, done);
      var i :| 0 <= i < |m| && Strip(m[i]) == l;
      StripEachHas(SlotFor(e.slots, l).value.lines, m[i]);
    } else {
      BodyOfEdited(e, lines, inside, done);
      if l in Written(e, lines[0], inside, done) {
        WrittenByOwner(e, lines[0], inside, done, l);
      } else {
        OnlyWritten(e, lines[1..], Next(lines[0], {e.section}, inside), Mark(e, lines[0], inside, done), l);
      }
    }
  }

  lemma {:induction false} MissingHas(slots: seq<Slot>, done: set<Pattern>, slot: Slot, x: string)
    requires slot in slots && slot.pat !in done && x in slot.lines
    ensures x in Missing(slots, done)
  {
    if slots[0] != slot {
      MissingHas(slots[1..], done, slot, x);
    }
  }

  lemma StripEachHas(xs: seq<string>, x: string)
    requires x in xs
    ensures Strip(x) in StripEach(xs)
  {
    var i :| 0 <= i < |xs| && xs[i] == x;
    assert StripEach(xs)[i] == Strip(x);
  }

  /** As soon as the section occurs, however often and whatever it holds, the lines the
      editor writes are in it. */
  lemma {:induction false} WrittenPresent(
      e: Editor, lines: seq<string>, inside: bool, done: set<Pattern>, slot: Slot, x: string)
    requires Orderly(e) && slot in e.slots && slot.pat !in done && x in slot.lines
    requires inside || HeaderCount(lines, e.section) > 0
    ensures Strip(x) in Body(Edited(e, lines, inside, done), {e.section}, inside)
  {
    hide Opens, Strip, Matches;
    if inside {
      MissingHas(e.slots, done, slot, x);
      StripEachHas(Missing(e.slots, done), x);
    }
    if lines == [] {
      BodyOfEditedEnd(e, inside, done);
    } else {
      var raw := lines[0];
      BodyOfEdited(e, lines, inside, done);
      if !inside || (!IsHeader(raw) && SlotFor(e.slots, Strip(raw)) != Some(slot)) {
        WrittenPresent(e, lines[1..], Next(raw, {e.section}, inside), Mark(e, raw, inside, done), slot, x);
      } else if !IsHeader(raw) {
        StripEachHas(slot.lines, x);
      }
    }
  }

  lemma OneMissing(e: Editor, slot: Slot, done: set<Pattern>)
    requires e.slots == [slot]
    ensures Missing(e.slots, done) == if slot.pat in done then [] else slot.lines
  {
    assert e.slots[1..] == [];
  }

  // ---------------------------------------------------------------------------
  // Editing again changes nothing
  // ---------------------------------------------------------------------------

  /** The flags of two passes agree, but for slots that write nothing. */
  predicate SameFlags(e: Editor, done: set<Pattern>, again: set<Pattern>) {
    forall s :: s in e.slots ==> s.lines == [] || (s.pat in done <==> s.pat in again)
  }

  lemma {:induction false} MissingSame(e: Editor, slots: seq<Slot>, done: set<Pattern>, again: set<Pattern>)
    requires SameFlags(e, done, again) && forall s :: s in slots ==> s in e.slots
    ensures Missing(slots, done) == Missing(slots, again)
  {
    if slots != [] {
      assert slots[0] in slots;
      MissingSame(e, slots[1..], done, again);
    }
  }

  predicate Repeatable(e: Editor) {
    forall s :: s in e.slots ==> s.once || |s.lines| <= 1
  }

  lemma {:induction false} OwnedSkipped(e: Editor, slot: Slot, xs: seq<string>, rest: seq<string>, done: set<Pattern>)
    requires Tidy(e) && slot in e.slots && slot.once && slot.pat in done
    requires forall x :: x in xs ==> x in slot.lines
    ensures Edited(e, xs + rest, true, done) == Edited(e, rest, true, done)
  {
    hide Opens, Strip, Matches;
    if xs == [] {
      assert xs + rest == rest;
    } else {
      assert xs[0] in xs && FillsOnly(e, slot) && OwnLines(e, slot.lines);
      assert (xs + rest)[1..] == xs[1..] + rest && done + {slot.pat} == done;
      OwnedSkipped(e, slot, xs[1..], rest, done);
    }
  }

  /** A block the editor wrote is replaced by itself. */
  lemma BlockAgain(e: Editor, slot: Slot, rest: seq<string>, done: set<Pattern>)
    requires Tidy(e) && Repeatable(e) && slot in e.slots && slot.lines != []
    requires slot.once ==> slot.pat !in done
    ensures Edited(e, slot.lines + rest, true, done) == slot.lines + Edited(e, rest, true, done + {slot.pat})
  {
    hide Opens, Strip, Matches;
    var xs := slot.lines;
    assert xs[0] in xs && FillsOnly(e, slot) && OwnLines(e, xs);
    assert (xs + rest)[1..] == xs[1..] + rest;
    if slot.once {
      OwnedSkipped(e, slot, xs[1..], rest, done + {slot.pat});
    } else {
      assert xs[1..] == [] && [] + rest == rest;
    }
  }

  function Unwritten(slots: seq<Slot>, done: set<Pattern>): set<Pattern> {
    set s | s in slots && s.pat !in done && s.lines != [] :: s.pat
  }

  lemma UnwrittenNone(done: set<Pattern>)
    ensures Unwritten([], done) == {}
  {
  }

  lemma UnwrittenStep(slots: seq<Slot>, done: set<Pattern>, again: set<Pattern>)
    requires slots != []
    ensures slots[0].pat in done || slots[0].lines == [] ==> Unwritten(slots, done) == Unwritten(slots[1..], done)
    ensures slots[0].pat !in done && slots[0].lines != [] ==>
              again + {slots[0].pat} + Unwritten(slots[1..], done) == again + Unwritten(slots, done)
  {
    assert forall s :: s in slots <==> s == slots[0] || s in slots[1..];
  }

  lemma LaterSlotsDiffer(e: Editor, k: nat)
    requires Tidy(e) && k < |e.slots|
    ensures forall s :: s in e.slots[k + 1..] ==> s.pat != e.slots[k].pat
  {
    forall s | s in e.slots[k + 1..]
      ensures s.pat != e.slots[k].pat
    {
      var i :| k + 1 <= i < |e.slots| && e.slots[i] == s;
    }
  }

  lemma {:induction false} MissingAgain(
      e: Editor, k: nat, rest: seq<string>, done: set<Pattern>, again: set<Pattern>)
    requires Tidy(e) && Repeatable(e) && k <= |e.slots|
    requires forall s :: s in e.slots[k..] ==> s.lines == [] || (s.pat in done <==> s.pat in again)
    ensures Edited(e, Missing(e.slots[k..], done) + rest, true, again)
            == Missing(e.slots[k..], done) + Edited(e, rest, true, again + Unwritten(e.slots[k..], done))
    decreases |e.slots| - k
  {
    hide IsHeader, Opens, Strip, Matches, Edited, Tidy, Repeatable, Unwritten;
    var slots := e.slots[k..];
    if slots == [] {
      UnwrittenNone(done);
      assert again + {} == again;
      assert [] + rest == rest && [] + Edited(e, rest, true, again) == Edited(e, rest, true, again);
    } else {
      var slot := slots[0];
      assert slot == e.slots[k] && slots[1..] == e.slots[k + 1..];
      var tail := Missing(slots[1..], done);
      if slot.pat in done || slot.lines == [] {
        assert Missing(slots, done) == tail;
        MissingAgain(e, k + 1, rest, done, again);
        UnwrittenStep(slots, done, again);
      } else {
        BlockAgain(e, slot, tail + rest, again);
        assert Missing(slots, done) == slot.lines + tail;
        assert slot.lines + tail + rest == slot.lines + (tail + rest);
        LaterSlotsDiffer(e, k);
        MissingAgain(e, k + 1, rest, done, again + {slot.pat});
        UnwrittenStep(slots, done, again);
      }
    }
  }

  lemma {:induction false} NothingMissing(e: Editor, slots: seq<Slot>, done: set<Pattern>)
    requires forall s :: s in slots ==> s.lines == [] || s.pat in done
    ensures Missing(slots, done) == []
  {
    if slots != [] {
      assert slots[0] in slots;
      NothingMissing(e, slots[1..], done);
    }
  }

  lemma EditedOne(e: Editor, raw: string, rest: seq<string>, inside: bool, again: set<Pattern>)
    ensures Edited(e, [raw] + rest, inside, again) ==
            Emit(e, raw, inside, again) + Edited(e, rest, Next(raw, {e.section}, inside), Mark(e, raw, inside, again))
  {
    hide IsHeader, Opens, Emit, Mark;
    assert ([raw] + rest)[1..] == rest;
  }

  /** What was written for a line is written again. */
  lemma EmitAgain(
      e: Editor, raw: string, rest: seq<string>, inside: bool, done: set<Pattern>, again: set<Pattern>)
    returns (again': set<Pattern>)
    requires Tidy(e) && Repeatable(e) && SameFlags(e, done, again)
    ensures Edited(e, Emit(e, raw, inside, done) + rest, inside, again) ==
            Emit(e, raw, inside, done) + Edited(e, rest, Next(raw, {e.section}, inside), again')
    ensures SameFlags(e, Mark(e, raw, inside, done), again')
  {
    hide IsHeader, Opens, Strip, Matches, Edited;
    var xs := Emit(e, raw, inside, done);
    again' := Mark(e, raw, inside, again);
    if inside && IsHeader(raw) {
      var filled := again + Unwritten(e.slots, done);
      again' := Mark(e, raw, inside, filled);
      var m := Missing(e.slots, done);
      assert xs + rest == m + ([raw] + rest);
      MissingEnds(e, [raw] + rest, done, again);
      NothingMissing(e, e.slots, filled);
      EditedOne(e, raw, rest, inside, filled);
    } else if Hidden(e, raw, inside) {
      var slot := SlotFor(e.slots, Strip(raw)).value;
      if (slot.once && slot.pat in done) || slot.lines == [] {
        again' := again;
        assert xs == [] && [] + rest == rest;
      } else {
        BlockAgain(e, slot, rest, again);
      }
    } else {
      EditedOne(e, raw, rest, inside, again);
    }
  }

  /** Running an editor on its own result changes nothing. */
  lemma {:induction false} EditedAgain(
      e: Editor, lines: seq<string>, inside: bool, done: set<Pattern>, again: set<Pattern>)
    requires Tidy(e) && Repeatable(e) && SameFlags(e, done, again)
    ensures Edited(e, Edited(e, lines, inside, done), inside, again) == Edited(e, lines, inside, done)
  {
    hide IsHeader, Opens, Strip, Matches, Emit, Mark;
    if lines == [] {
      var m := Missing(e.slots, done);
      if inside {
        MissingEnds(e, [], done, again);
        assert m + [] == m;
        NothingMissing(e, e.slots, again + Unwritten(e.slots, done));
      }
    } else {
      var in', done' := Next(lines[0], {e.section}, inside), Mark(e, lines[0], inside, done);
      var again' := EmitAgain(e, lines[0], Edited(e, lines[1..], in', done'), inside, done, again);
      EditedAgain(e, lines[1..], in', done', again');
    }
  }

  lemma MissingEnds(e: Editor, rest: seq<string>, done: set<Pattern>, again: set<Pattern>)
    requires Tidy(e) && Repeatable(e) && SameFlags(e, done, again)
    ensures Edited(e, Missing(e.slots, done) + rest, true, again)
            == Missing(e.slots, done) + Edited(e, rest, true, again + Unwritten(e.slots, done))
  {
    assert e.slots[0..] == e.slots;
    MissingAgain(e, 0, rest, done, again);
  }

  lemma EditTwice(e: Editor, lines: seq<string>)
    requires Tidy(e) && Repeatable(e)
    ensures Edit(e, Edit(e, lines)) == Edit(e, lines)
  {
    EditedAgain(e, lines, false, {}, {});
  }

  // ---------------------------------------------------------------------------
  // Back to text
  // ---------------------------------------------------------------------------

  lemma {:induction false} EditedOneLine(e: Editor, lines: seq<string>, inside: bool, done: set<Pattern>)
    requires Orderly(e) && OneLineEach(lines)
    ensures OneLineEach(Edited(e, lines, inside, done))
  {
    MissingPlain(e.slots, done);
    if lines != [] {
      assert lines[0] in lines && OneLineEach(lines[1..]);
      EditedOneLine(e, lines[1..], Next(lines[0], {e.section}, inside), Mark(e, lines[0], inside, done));
    }
  }

  /** What an editor makes of a whole text. */
  function EditText(e: Editor, text: string): string {
    Unlines(Edit(e, SplitLines(text)))
  }

  /** Reading back what an editor wrote gives the edited lines. */
  lemma SplitEditText(e: Editor, text: string)
    requires Orderly(e) && text != ""
    ensures SplitLines(EditText(e, text)) == Edit(e, SplitLines(text))
  {
    var lines := SplitLines(text);
    EditedOneLine(e, lines, false, {});
    SplitUnlines(Edit(e, lines));
  }
}
