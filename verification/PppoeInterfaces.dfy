/** Interface bindings: the repeated `interface=` lines of the `[pppoe]` section. */
module PppoeInterfaces {
  import opened Text
  import opened Patterns
  import opened Sections
  import opened KeyLines
  import opened ConfigManager
  import opened ConfigEdit

  datatype Binding = Binding(name: string, options: string)

  const IFACE := "interface"

  // ---------------------------------------------------------------------------
  // Parsing
  // ---------------------------------------------------------------------------

  /** The pattern `^interface\s*=\s*(.+)$`, ignoring case: the captured text, trimmed. */
  function IfaceMatch(line: string): Option<string> {
    match MatchKey(line, IFACE)
    case None => None
    case Some(rest) => if LStrip(rest) == "" then None else Some(Strip(rest))
  }

  /** Name and options are separated by the first comma. */
  function BindingOf(value: string): Binding {
    var i := Find(value, ',');
    Binding(Strip(value[..i]), if i < |value| then Strip(value[i + 1..]) else "")
  }

  function Bindings(body: seq<string>): seq<Binding> {
    if body == [] then []
    else
      (if Matches(KeyWithValue(IFACE), body[0]) then [BindingOf(ValueOf(body[0]))] else []) + Bindings(body[1..])
  }

  /** The bindings of all `[pppoe]` sections, in file order. */
  function ReadBindings(lines: seq<string>): seq<Binding> {
    Bindings(Body(lines, {PPPOE}, false))
  }

  lemma IfaceKey()
    ensures KeyName(IFACE) && IFACE + "=" == "interface="
  {
  }

  lemma StripEmptyIff(s: string)
    ensures Strip(s) == "" <==> LStrip(s) == ""
  {
    var from := FirstVisible(s, 0);
    assert from < |s| ==> AfterVisible(s, from, |s|) > from;
  }

  lemma IfaceMatchIff(line: string)
    requires Trimmed(line)
    ensures IfaceMatch(line) == if Matches(KeyWithValue(IFACE), line) then Some(ValueOf(line)) else None
  {
    hide MatchKey, Strip, LStrip, HasKey, ValueOf;
    IfaceKey();
    MatchKeyIffHasKey(line, IFACE);
    if MatchKey(line, IFACE).Some? {
      StripEmptyIff(MatchKey(line, IFACE).value);
    }
  }

  lemma BindingsStep(lines: seq<string>, i: nat, inside: bool)
    requires i < |lines|
    ensures var raw := lines[i];
            var hit := if inside && !IsHeader(raw) then IfaceMatch(Strip(raw)) else None;
            Bindings(Body(lines[i..], {PPPOE}, inside)) ==
            (if hit.Some? then [BindingOf(hit.value)] else [])
            + Bindings(Body(lines[i + 1..], {PPPOE}, Next(raw, {PPPOE}, inside)))
  {
    hide IsHeader, Opens, Strip, Matches, IfaceMatch, BindingOf;
    assert lines[i..][1..] == lines[i + 1..];
    IfaceMatchIff(Strip(lines[i]));
    var rest := Body(lines[i + 1..], {PPPOE}, Next(lines[i], {PPPOE}, inside));
    assert [] + rest == rest && ([Strip(lines[i])] + rest)[1..] == rest;
  }

  /** `_parse_pppoe_interfaces` */
  method ParseInterfaces(lines: seq<string>) returns (interfaces: seq<Binding>)
    ensures interfaces == ReadBindings(lines)
  {
    hide IsHeader, Strip, Body, Bindings, IfaceMatch, BindingOf;
    interfaces := [];
    var inPppoe := false;
    assert lines[0..] == lines;
    for i := 0 to |lines|
      invariant interfaces + Bindings(Body(lines[i..], {PPPOE}, inPppoe)) == ReadBindings(lines)
    {
      var raw := lines[i];
      var line := Strip(raw);
      BindingsStep(lines, i, inPppoe);
      if IsHeader(raw) {
        inPppoe := Lower(line) == "[pppoe]";
      } else if inPppoe {
        var m := IfaceMatch(line);
        if m.Some? {
          interfaces := interfaces + [BindingOf(m.value)];
        }
      }
    }
    NoBindings();
    NothingLeft(lines, {PPPOE}, inPppoe);
  }

  lemma NoBindings()
    ensures Bindings([]) == []
  {
  }

  // ---------------------------------------------------------------------------
  // Rebuilding
  // ---------------------------------------------------------------------------

  function Rendered(b: Binding): string {
    b.name + if b.options != "" then "," + b.options else ""
  }

  function RenderEach(bs: seq<Binding>): (lines: seq<string>)
    ensures |lines| == |bs|
    ensures forall i :: 0 <= i < |bs| ==> lines[i] == IFACE + "=" + Rendered(bs[i])
  {
    if bs == [] then [] else [IFACE + "=" + Rendered(bs[0])] + RenderEach(bs[1..])
  }

  function InterfaceSlot(bs: seq<Binding>): Slot {
    Slot(KeyWithValue(IFACE), RenderEach(bs), true)
  }

  function InterfaceEditor(bs: seq<Binding>): Editor {
    Editor(PPPOE, [InterfaceSlot(bs)], true)
  }

  /** Writes the bindings. */
  method WriteBindings(out: seq<string>, interfaces: seq<Binding>) returns (out': seq<string>)
    ensures out' == out + RenderEach(interfaces)
  {
    hide Rendered, KeyName, RenderEach;
    out' := out;
    NothingRendered();
    IfaceKey();
    assert interfaces[0..] == interfaces;
    for i := 0 to |interfaces|
      invariant out' + RenderEach(interfaces[i..]) == out + RenderEach(interfaces)
    {
      var iface := interfaces[i];
      assert interfaces[i..][0] == iface && interfaces[i..][1..] == interfaces[i + 1..];
      var val := iface.name;
      if iface.options != "" {
        val := val + "," + iface.options;
      }
      RenderedIs(iface);
      RenderEachStep(interfaces[i..]);
      assert IFACE + "=" + val == "interface=" + val;
      out' := out' + ["interface=" + val];
    }
  }

  lemma RenderedIs(b: Binding)
    ensures Rendered(b) == if b.options != "" then b.name + "," + b.options else b.name
  {
    assert b.name + "" == b.name && b.name + ("," + b.options) == b.name + "," + b.options;
  }

  lemma NothingRendered()
    ensures RenderEach([]) == []
  {
  }

  lemma RenderEachStep(bs: seq<Binding>)
    requires bs != []
    ensures RenderEach(bs) == [IFACE + "=" + Rendered(bs[0])] + RenderEach(bs[1..])
  {
  }

  function Flag(written: bool): set<Pattern> {
    if written then {KeyWithValue(IFACE)} else {}
  }

  lemma InterfacePass(bs: seq<Binding>, raw: string, inside: bool, written: bool)
    ensures var hit := inside && IfaceMatch(Strip(raw)).Some?;
            var e := InterfaceEditor(bs);
            && Emit(e, raw, inside, Flag(written)) == (
                 if IsHeader(raw) then (if inside && !written then RenderEach(bs) else []) + [raw]
                 else if hit then (if written then [] else RenderEach(bs))
                 else [raw])
            && Mark(e, raw, inside, Flag(written)) == (
                 if IsHeader(raw) then Flag(false) else if hit then Flag(true) else Flag(written))
            && Missing(e.slots, Flag(written)) == (if written then [] else RenderEach(bs))
  {
    hide IsHeader, Strip, IfaceMatch, Matches;
    IfaceMatchIff(Strip(raw));
    var e := InterfaceEditor(bs);
    assert [InterfaceSlot(bs)][1..] == [];
    OneMissing(e, InterfaceSlot(bs), Flag(written));
    assert SlotFor(e.slots, Strip(raw)) == if IfaceMatch(Strip(raw)).Some? then Some(InterfaceSlot(bs)) else None;
    assert [] + [raw] == [raw];
    assert {KeyWithValue(IFACE)} + {KeyWithValue(IFACE)} == {KeyWithValue(IFACE)} && {} + {KeyWithValue(IFACE)} == {KeyWithValue(IFACE)};
  }

  /** One pass of the rebuilding loop. */
  method RebuildLine(interfaces: seq<Binding>, raw: string, inPppoe: bool, written: bool, out: seq<string>)
    returns (out': seq<string>, in': bool, written': bool)
    ensures var e, done := InterfaceEditor(interfaces), Flag(inPppoe && written);
            && out' == out + Emit(e, raw, inPppoe, done)
            && in' == Next(raw, {PPPOE}, inPppoe)
            && Flag(in' && written') == Mark(e, raw, inPppoe, done)
  {
    hide IsHeader, Strip, IfaceMatch, Emit, Mark, Missing, RenderEach;
    InterfacePass(interfaces, raw, inPppoe, inPppoe && written);
    out', in', written' := out, inPppoe, written;
    var line := Strip(raw);
    if IsHeader(raw) {
      if inPppoe && !written {
        out' := WriteBindings(out, interfaces);
        written' := true;
      }
      in' := Lower(line) == "[pppoe]";
      if in' {
        written' := false;
      }
      out' := out' + [raw];
    } else if inPppoe && IfaceMatch(line).Some? {
      if !written {
        out' := WriteBindings(out, interfaces);
        written' := true;
      }
    } else {
      out' := out + [raw];
    }
  }

  /** `_rebuild_config` on lines. */
  method RebuildConfig(lines: seq<string>, interfaces: seq<Binding>) returns (out: seq<string>)
    ensures out == Edit(InterfaceEditor(interfaces), lines)
  {
    hide IsHeader, Strip, IfaceMatch, Edited, Emit, Mark, Missing, Next, RenderEach;
    ghost var e := InterfaceEditor(interfaces);
    out := [];
    var inPppoe, written := false, false;
    EditStart(e, lines);
    for i := 0 to |lines|
      invariant out + Edited(e, lines[i..], inPppoe, Flag(inPppoe && written)) == Edit(e, lines)
    {
      EditedPass(e, lines, i, inPppoe, Flag(inPppoe && written), out);
      out, inPppoe, written := RebuildLine(interfaces, lines[i], inPppoe, written, out);
    }
    EditedEnd(e, lines, inPppoe, Flag(inPppoe && written));
    InterfacePass(interfaces, "", inPppoe, inPppoe && written);
    assert out + [] == out;
    if inPppoe && !written {
      out := WriteBindings(out, interfaces);
    }
  }

  // ---------------------------------------------------------------------------
  // Adding and removing
  // ---------------------------------------------------------------------------

  function Names(bs: seq<Binding>): (names: seq<string>)
    ensures |names| == |bs|
  {
    if bs == [] then [] else [bs[0].name] + Names(bs[1..])
  }

  function Without(bs: seq<Binding>, name: string): (kept: seq<Binding>)
    ensures |kept| <= |bs|
    ensures |kept| == |bs| <==> name !in Names(bs)
  {
    if bs == [] then [] else (if bs[0].name != name then [bs[0]] else []) + Without(bs[1..], name)
  }

  /** Exactly the bindings of other names are kept. */
  lemma {:induction false} WithoutKeeps(bs: seq<Binding>, name: string)
    ensures forall b :: b in Without(bs, name) <==> b in bs && b.name != name
  {
    if bs != [] {
      WithoutKeeps(bs[1..], name);
    }
  }

  /** Lists the bindings of the file. */
  method ListInterfaces(cm: Manager) returns (r: Result<seq<Binding>>)
    ensures r == if cm.file.Some? then Ok(ReadBindings(SplitLines(cm.file.value))) else Err(NotFound)
  {
    if cm.file.None? {
      return Err(NotFound);
    }
    var interfaces := ParseInterfaces(SplitLines(cm.file.value));
    return Ok(interfaces);
  }

  /** Adds a binding; a name that is listed already is refused. */
  method AddInterface(cm: Manager, name: string, options: string, now: string) returns (r: Result<()>)
    modifies cm`file, cm`backups
    ensures old(cm.file).None? ==> r == Err(NotFound) && cm.Abs() == old(cm.Abs())
    ensures old(cm.file).Some? ==>
              var current := ReadBindings(SplitLines(old(cm.file).value));
              if name in Names(current) then r == Err(AlreadyExists) && cm.Abs() == old(cm.Abs())
              else
                var e := InterfaceEditor(current + [Binding(name, options)]);
                cm.Abs() == EditFile(e, old(cm.Abs()), now) && r == EditResult(e, old(cm.Abs()))
  {
    if cm.file.None? {
      return Err(NotFound);
    }
    var lines := SplitLines(cm.file.value);
    var current := ParseInterfaces(lines);
    if name in Names(current) {
      return Err(AlreadyExists);
    }
    var out := RebuildConfig(lines, current + [Binding(name, options)]);
    var written := cm.WriteConfig(Unlines(out), true, now);
    return if written.Ok? then Ok(()) else Err(written.error);
  }

  /** Removes every binding of a name; an unknown name is refused. */
  method RemoveInterface(cm: Manager, name: string, now: string) returns (r: Result<()>)
    modifies cm`file, cm`backups
    ensures old(cm.file).None? ==> r == Err(NotFound) && cm.Abs() == old(cm.Abs())
    ensures old(cm.file).Some? ==>
              var current := ReadBindings(SplitLines(old(cm.file).value));
              if name !in Names(current) then r == Err(NoSuchEntry) && cm.Abs() == old(cm.Abs())
              else
                var e := InterfaceEditor(Without(current, name));
                cm.Abs() == EditFile(e, old(cm.Abs()), now) && r == EditResult(e, old(cm.Abs()))
  {
    if cm.file.None? {
      return Err(NotFound);
    }
    var lines := SplitLines(cm.file.value);
    var current := ParseInterfaces(lines);
    var kept := Without(current, name);
    if |kept| == |current| {
      return Err(NoSuchEntry);
    }
    var out := RebuildConfig(lines, kept);
    var written := cm.WriteConfig(Unlines(out), true, now);
    return if written.Ok? then Ok(()) else Err(written.error);
  }

  // ---------------------------------------------------------------------------
  // What is written is read back
  // ---------------------------------------------------------------------------

  /** Blanks around a text do not change its trimmed form. */
  lemma StripOuter(s: string, from: nat, to: nat)
    requires from <= to <= |s|
    requires forall i :: 0 <= i < from || to <= i < |s| ==> IsSpace(s[i])
    ensures Strip(s[from..to]) == Strip(s)
  {
    var m := s[from..to];
    var a := FirstVisible(m, 0);
    var z := AfterVisible(m, a, |m|);
    assert Strip(m) == m[a..z];
    hide FirstVisible, AfterVisible, IsSpace, Strip;
    assert forall i :: 0 <= i < |m| ==> m[i] == s[from + i];
    assert forall i :: from <= i < to ==> s[i] == m[i - from];
    StripIs(s, from + a, from + z);
    SliceOfSlice(s, from, to, a, z);
  }

  /** The comma is where it was after trimming, and so are the parts it separates. */
  lemma CommaInTrimmed(v: string, from: nat, to: nat, i: nat)
    requires from <= i < to <= |v| && i == Find(v, ',')
    ensures Find(v[from..to], ',') == i - from
    ensures v[from..to][..i - from] == v[..i][from..i]
    ensures v[from..to][i - from + 1..] == v[i + 1..][0..to - i - 1]
  {
    var t, n := v[from..to], i - from;
    assert t[n] == v[from + n];
    forall k | 0 <= k < n
      ensures t[k] != ','
    {
      assert t[k] == v[from + k];
    }
    CommaAt(t, n);
    SliceOfSlice(v, from, to, 0, n);
    SliceOfSlice(v, 0, i, from, i);
    SliceOfSlice(v, from, to, n + 1, to - from);
    SliceOfSlice(v, i + 1, |v|, 0, to - i - 1);
    assert t[n + 1..] == t[n + 1..to - from];
  }

  lemma CommaAt(s: string, n: nat)
    requires n < |s| && s[n] == ','
    requires forall k :: 0 <= k < n ==> s[k] != ','
    ensures Find(s, ',') == n
  {
  }

  lemma SliceOfSlice(v: string, a: nat, b: nat, c: nat, d: nat)
    requires a <= b <= |v| && c <= d <= b - a
    ensures v[a..b][c..d] == v[a + c..a + d]
  {
    var x, y := v[a..b][c..d], v[a + c..a + d];
    assert |x| == |y| == d - c;
    forall k | 0 <= k < d - c
      ensures x[k] == y[k]
    {
      assert x[k] == v[a..b][c + k] == v[a + (c + k)];
    }
    assert x == y;
  }

  lemma BindingOfInner(v: string, from: nat, to: nat)
    requires from <= to <= |v|
    requires forall k :: 0 <= k < from || to <= k < |v| ==> IsSpace(v[k])
    ensures BindingOf(v[from..to]) == BindingOf(v)
  {
    hide Strip;
    var i := Find(v, ',');
    if i < |v| {
      assert from <= i < to;
      CommaInTrimmed(v, from, to, i);
      StripOuter(v[..i], from, i);
      StripRight(v, i + 1, to);
    } else {
      NoCommaBinding(v[from..to]);
      NoCommaBinding(v);
      StripOuter(v, from, to);
    }
  }

  lemma NoCommaBinding(v: string)
    requires ',' !in v
    ensures BindingOf(v) == Binding(Strip(v), "")
  {
    hide Strip;
    assert Find(v, ',') == |v|;
    assert v[..|v|] == v;
  }

  lemma BindingOfTrimmed(v: string)
    ensures BindingOf(Strip(v)) == BindingOf(v)
  {
    hide BindingOf;
    var from := FirstVisible(v, 0);
    BindingOfInner(v, from, AfterVisible(v, from, |v|));
  }

  lemma StripRight(v: string, a: nat, to: nat)
    requires a <= to <= |v|
    requires forall k :: to <= k < |v| ==> IsSpace(v[k])
    ensures Strip(v[a..][0..to - a]) == Strip(v[a..])
  {
    hide Strip;
    var rest := v[a..];
    assert forall k :: 0 <= k < |rest| ==> rest[k] == v[a + k];
    StripOuter(rest, 0, to - a);
  }

  /** What the parser makes of a rendered binding. */
  function Normal(b: Binding): Binding {
    BindingOf(Rendered(b))
  }

  /** A binding whose rendering carries a value and stays on one line. */
  predicate Renderable(b: Binding) {
    OnOneLine(b) && Strip(Rendered(b)) != ""
  }

  /** Name without outer blanks or commas, options without outer blanks. */
  predicate Canonical(b: Binding) {
    Trimmed(b.name) && ',' !in b.name && Trimmed(b.options)
  }

  lemma NormalOfName(b: Binding)
    requires ',' !in b.name
    ensures Normal(b) == Binding(Strip(b.name), Strip(b.options))
  {
    hide Strip;
    var v := Rendered(b);
    var n := |b.name|;
    assert forall k :: 0 <= k < n ==> v[k] == b.name[k];
    assert b.options != "" ==> v[n] == ',';
    assert Find(v, ',') == n;
    assert v[..n] == b.name;
    if b.options != "" {
      assert v[n + 1..] == b.options;
    } else {
      StripTrimmed("");
    }
  }

  /** Exactly the canonical bindings come back as they were written. */
  lemma RoundTripIffCanonical(b: Binding)
    ensures Normal(b) == b <==> Canonical(b)
  {
    if Canonical(b) {
      NormalOfName(b);
      StripTrimmed(b.name);
      StripTrimmed(b.options);
    }
    if Normal(b) == b {
      var v := Rendered(b);
      NamePartHasNoComma(v);
      StripTrimmed("");
    }
  }

  lemma NamePartHasNoComma(v: string)
    ensures ',' !in BindingOf(v).name
    ensures Trimmed(BindingOf(v).name) && Trimmed(BindingOf(v).options)
  {
    var before := v[..Find(v, ',')];
    assert ',' !in before;
    var from := FirstVisible(before, 0);
    assert forall i :: 0 <= i < |Strip(before)| ==> Strip(before)[i] == before[from + i];
  }

  /** A binding that stays on one line, whatever it holds. */
  predicate OnOneLine(b: Binding) {
    OneLine(b.name) && OneLine(b.options)
  }

  lemma RenderedLine(b: Binding)
    requires OnOneLine(b)
    ensures var x := IFACE + "=" + Rendered(b);
            && OneLine(x) && !IsHeader(x)
            && HasKey(Strip(x), IFACE)
            && (Matches(KeyWithValue(IFACE), Strip(x)) <==> Strip(Rendered(b)) != "")
            && BindingOf(ValueOf(Strip(x))) == Normal(b)
  {
    hide Strip, IsHeader, HasKey, ValueOf, BindingOf;
    IfaceKey();
    OneLineAppend(",", b.options);
    OneLineAppend(b.name, if b.options != "" then "," + b.options else "");
    WrittenIsPlain(IFACE, Rendered(b));
    WrittenKeyLine(IFACE, Rendered(b));
    BindingOfTrimmed(Rendered(b));
  }

  lemma RenderableVisible(b: Binding)
    ensures Renderable(b) ==> OnOneLine(b) && Strip(Rendered(b)) != ""
  {
  }

  predicate AllRenderable(bs: seq<Binding>) {
    forall b :: b in bs ==> Renderable(b)
  }

  lemma InterfaceEditorTidy(bs: seq<Binding>)
    requires AllRenderable(bs)
    ensures Tidy(InterfaceEditor(bs)) && Repeatable(InterfaceEditor(bs))
  {
    hide Strip, IsHeader, Matches, Renderable, OneLine, OnOneLine, Rendered;
    var e, s := InterfaceEditor(bs), InterfaceSlot(bs);
    forall x | x in s.lines
      ensures OneLine(x) && !IsHeader(x) && SlotFor(e.slots, Strip(x)) == Some(s)
    {
      var i :| 0 <= i < |bs| && s.lines[i] == x;
      assert bs[i] in bs;
      RenderableVisible(bs[i]);
      RenderedLine(bs[i]);
    }
  }

  /** Owns every `interface=` line, with or without a value. */
  const INTERFACE_MASK := Editor(PPPOE, [Slot(Key(IFACE), [], false)], true)

  lemma MaskOwns(line: string)
    ensures Owned(INTERFACE_MASK, line) <==> HasKey(line, IFACE)
  {
    hide HasKey;
    assert INTERFACE_MASK.slots[1..] == [];
  }

  lemma InterfaceOwns(bs: seq<Binding>, line: string)
    ensures Owned(InterfaceEditor(bs), line) <==> Matches(KeyWithValue(IFACE), line)
  {
    hide Matches;
    assert [InterfaceSlot(bs)][1..] == [];
  }

  /** Whatever the bindings are, as long as each stays on one line. */
  lemma InterfaceEditorOrderly(bs: seq<Binding>)
    requires AllOnOneLine(bs)
    ensures Orderly(InterfaceEditor(bs)) && Covers(INTERFACE_MASK, InterfaceEditor(bs))
  {
    hide Strip, IsHeader, HasKey, ValueOf, OnOneLine, OneLine, Rendered, Owned;
    var e, s := InterfaceEditor(bs), InterfaceSlot(bs);
    forall x | x in s.lines
      ensures OneLine(x) && !IsHeader(x) && Owned(INTERFACE_MASK, Strip(x))
      ensures Owned(e, Strip(x)) ==> SlotFor(e.slots, Strip(x)) == Some(s)
    {
      var i :| 0 <= i < |bs| && s.lines[i] == x;
      assert bs[i] in bs;
      RenderedLine(bs[i]);
      MaskOwns(Strip(x));
      InterfaceOwns(bs, Strip(x));
      assert e.slots[0] == s;
    }
    forall l {:trigger Owned(e, l)} | Owned(e, l)
      ensures Owned(INTERFACE_MASK, l)
    {
      InterfaceOwns(bs, l);
      MaskOwns(l);
    }
  }

  predicate AllOnOneLine(bs: seq<Binding>) {
    forall b :: b in bs ==> OnOneLine(b)
  }

  function Times(bs: seq<Binding>, n: nat): seq<Binding> {
    if n == 0 then [] else bs + Times(bs, n - 1)
  }

  lemma {:induction false} TimesIn(bs: seq<Binding>, n: nat)
    ensures forall b :: b in Times(bs, n) ==> b in bs
    ensures n > 1 ==> |Times(bs, n)| >= 2 * |bs|
    ensures bs == [] ==> Times(bs, n) == []
  {
    if n > 0 {
      TimesIn(bs, n - 1);
      if n == 2 {
        assert Times(bs, 1) == bs + Times(bs, 0);
      }
    }
  }

  lemma TimesSame(bs: seq<Binding>, n: nat)
    ensures Times(bs, n) == bs <==> n == 1 || bs == []
  {
    TimesIn(bs, n);
    if n == 1 {
      assert bs + Times(bs, 0) == bs;
    }
  }

  lemma NoTimes(bs: seq<Binding>)
    ensures Times(bs, 0) == []
  {
  }

  lemma {:induction false} BindingsAppend(a: seq<string>, b: seq<string>)
    ensures Bindings(a + b) == Bindings(a) + Bindings(b)
  {
    hide Matches, BindingOf, ValueOf;
    if a == [] {
      assert a + b == b;
    } else {
      assert (a + b)[1..] == a[1..] + b && (a + b)[0] == a[0];
      BindingsAppend(a[1..], b);
      var first := if Matches(KeyWithValue(IFACE), a[0]) then [BindingOf(ValueOf(a[0]))] else [];
      assert first + (Bindings(a[1..]) + Bindings(b)) == first + Bindings(a[1..]) + Bindings(b);
    }
  }

  lemma {:induction false} BindingsOfKept(body: seq<string>)
    ensures Bindings(Keep(body, KeyWithValue(IFACE))) == Bindings(body)
  {
    hide Matches, BindingOf, ValueOf;
    if body != [] {
      BindingsOfKept(body[1..]);
      var rest := Keep(body[1..], KeyWithValue(IFACE));
      assert [] + rest == rest && ([body[0]] + rest)[1..] == rest;
    }
  }

  /** What the parser makes of written bindings: one that renders to blanks is lost. */
  function AsRead(bs: seq<Binding>): (r: seq<Binding>)
    ensures |r| <= |bs|
  {
    if bs == [] then [] else (if Strip(Rendered(bs[0])) == "" then [] else [Normal(bs[0])]) + AsRead(bs[1..])
  }

  lemma {:induction false} BindingsOfRendered(bs: seq<Binding>)
    requires AllOnOneLine(bs)
    ensures Bindings(StripEach(RenderEach(bs))) == AsRead(bs)
    ensures NoHeaders(RenderEach(bs))
  {
    hide Matches, BindingOf, ValueOf, Strip, OnOneLine, Rendered, IsHeader, Normal;
    if bs != [] {
      var first, rest := IFACE + "=" + Rendered(bs[0]), RenderEach(bs[1..]);
      RenderedLine(bs[0]);
      BindingsOfRendered(bs[1..]);
      assert RenderEach(bs) == [first] + rest && ([first] + rest)[1..] == rest;
      assert StripEach(RenderEach(bs)) == [Strip(first)] + StripEach(rest);
      assert ([Strip(first)] + StripEach(rest))[1..] == StripEach(rest);
    }
  }

  lemma BlockRead(bs: seq<Binding>, rest: seq<string>)
    requires AllOnOneLine(bs)
    ensures Bindings(Body(RenderEach(bs) + rest, {PPPOE}, true)) == AsRead(bs) + Bindings(Body(rest, {PPPOE}, true))
  {
    hide Body, Bindings, AllOnOneLine, End;
    var block := RenderEach(bs);
    BindingsOfRendered(bs);
    BodyAppend(block, rest, {PPPOE}, true);
    BodyPlain(block, {PPPOE}, true);
    EndWithoutHeaders(block, {PPPOE}, true);
    BindingsAppend(StripEach(block), Body(rest, {PPPOE}, true));
  }

  /** One line kept as it is. */
  lemma LineRead(raw: string, rest: seq<string>, inside: bool)
    ensures Bindings(Body([raw] + rest, {PPPOE}, inside)) ==
            (if inside && !IsHeader(raw) && IfaceMatch(Strip(raw)).Some? then [BindingOf(ValueOf(Strip(raw)))] else [])
            + Bindings(Body(rest, {PPPOE}, Next(raw, {PPPOE}, inside)))
  {
    hide IsHeader, Opens, Strip, Matches, IfaceMatch, BindingOf;
    var lines := [raw] + rest;
    assert lines[0..] == lines && lines[1..] == rest;
    BindingsStep(lines, 0, inside);
    IfaceMatchIff(Strip(raw));
  }

  /** What the editor writes for one line, as the parser sees it. */
  lemma {:induction false} PassRead(bs: seq<Binding>, raw: string, inside: bool, written: bool, rest: seq<string>)
    requires AllOnOneLine(bs)
    ensures var out := Emit(InterfaceEditor(bs), raw, inside, Flag(written)) + rest;
            Bindings(Body(out, {PPPOE}, inside)) ==
            (if inside && !written && (IsHeader(raw) || IfaceMatch(Strip(raw)).Some?) then AsRead(bs) else [])
            + Bindings(Body(rest, {PPPOE}, Next(raw, {PPPOE}, inside)))
  {
    hide *;
    InterfacePass(bs, raw, inside, written);
    var out, block := Emit(InterfaceEditor(bs), raw, inside, Flag(written)) + rest, RenderEach(bs);
    var after := Bindings(Body(rest, {PPPOE}, Next(raw, {PPPOE}, inside)));
    assert [] + after == after;
    if IsHeader(raw) {
      LineRead(raw, rest, inside);
      if inside && !written {
        assert out == block + ([raw] + rest);
        BlockRead(bs, [raw] + rest);
      } else {
        assert out == [raw] + rest;
      }
    } else if inside && IfaceMatch(Strip(raw)).Some? {
      StaysInside(raw, inside);
      if written {
        assert out == rest;
      } else {
        assert out == block + rest;
        BlockRead(bs, rest);
      }
    } else {
      LineRead(raw, rest, inside);
      assert out == [raw] + rest;
    }
  }

  lemma StaysInside(raw: string, inside: bool)
    requires !IsHeader(raw)
    ensures Next(raw, {PPPOE}, inside) == inside
  {
  }

  lemma EndRead(bs: seq<Binding>, inside: bool, written: bool)
    requires AllOnOneLine(bs)
    ensures Bindings(Body(Edited(InterfaceEditor(bs), [], inside, Flag(written)), {PPPOE}, inside)) ==
            Times(AsRead(bs), if inside && !written then 1 else 0)
  {
    hide IsHeader, Strip, IfaceMatch, Body, Bindings, Emit, Mark, Missing, AllOnOneLine, AsRead, RenderEach;
    InterfacePass(bs, "", inside, written);
    BlockRead(bs, []);
    assert RenderEach(bs) + [] == RenderEach(bs);
    NothingRead(inside);
    TimesSame(AsRead(bs), 1);
    NoTimes(AsRead(bs));
  }

  lemma {:induction false} EditedRead(bs: seq<Binding>, lines: seq<string>, inside: bool, written: bool)
    requires AllOnOneLine(bs)
    ensures Bindings(Body(Edited(InterfaceEditor(bs), lines, inside, Flag(written)), {PPPOE}, inside)) ==
            Times(AsRead(bs), HeaderCount(lines, PPPOE) + if inside && !written then 1 else 0)
  {
    hide IsHeader, Opens, Strip, Matches, IfaceMatch, Body, Bindings, Emit, Mark, Missing, AllOnOneLine, AsRead, RenderEach;
    var e := InterfaceEditor(bs);
    if lines == [] {
      EndRead(bs, inside, written);
    } else {
      var raw, in' := lines[0], Next(lines[0], {PPPOE}, inside);
      var hit := inside && IfaceMatch(Strip(raw)).Some?;
      var written' := if IsHeader(raw) then false else hit || written;
      InterfacePass(bs, raw, inside, written);
      EditedRead(bs, lines[1..], in', written');
      PassRead(bs, raw, inside, written, Edited(e, lines[1..], in', Flag(written')));
    }
  }

  lemma NothingRead(inside: bool)
    ensures Bindings(Body([], {PPPOE}, inside)) == []
  {
  }

  /** Parsing a rebuilt text gives the bindings, in normal form and without those that render
      to blanks, once per `[pppoe]` header. */
  lemma RebuiltBindings(bs: seq<Binding>, lines: seq<string>)
    requires AllOnOneLine(bs)
    ensures ReadBindings(Edit(InterfaceEditor(bs), lines)) == Times(AsRead(bs), HeaderCount(lines, PPPOE))
    ensures HeaderCount(Edit(InterfaceEditor(bs), lines), PPPOE) == HeaderCount(lines, PPPOE)
  {
    hide Edited, AsRead, Body, Bindings, HeaderCount, AllOnOneLine, Orderly, Covers;
    EditedRead(bs, lines, false, false);
    InterfaceEditorOrderly(bs);
    HeaderCountEdit(InterfaceEditor(bs), lines, PPPOE);
  }

  lemma TimesEqual(a: seq<Binding>, b: seq<Binding>, n: nat)
    requires |a| == |b| && n > 0
    ensures Times(a, n) == Times(b, n) <==> a == b
  {
    assert Times(a, n)[..|a|] == a && Times(b, n)[..|b|] == b;
  }

  const EMPTY := Binding("", "")

  lemma {:induction false} AsReadSame(bs: seq<Binding>)
    ensures AsRead(bs) == bs <==> forall b :: b in bs ==> Canonical(b) && b != EMPTY
  {
    hide Canonical, Normal, Rendered, Strip;
    if bs != [] {
      var b, rest := bs[0], bs[1..];
      AsReadSame(rest);
      RoundTripIffCanonical(b);
      BlankIsEmpty(b);
      var head := if Strip(Rendered(b)) == "" then [] else [Normal(b)];
      assert AsRead(bs) == head + AsRead(rest);
      assert head != [] ==> (head + AsRead(rest))[1..] == AsRead(rest);
      assert forall x :: x in bs <==> x == b || x in rest;
    }
  }

  lemma BlankIsEmpty(b: Binding)
    ensures Canonical(b) ==> (Strip(Rendered(b)) == "" <==> b == EMPTY)
  {
    if Canonical(b) && b != EMPTY {
      RenderedVisible(b);
    }
    StripTrimmed("");
  }

  lemma {:induction false} TimesFewer(a: seq<Binding>, b: seq<Binding>, n: nat)
    requires |a| <= |b|
    ensures |Times(a, n)| <= |Times(b, n)|
    ensures |a| < |b| && n > 0 ==> |Times(a, n)| < |Times(b, n)|
  {
    if n > 0 {
      TimesFewer(a, b, n - 1);
    }
  }

  /** The list comes back as it was, once per header, exactly if every binding is canonical
      and not empty (or there is no header at all). */
  lemma RoundTripIff(bs: seq<Binding>, lines: seq<string>)
    requires AllOnOneLine(bs)
    ensures ReadBindings(Edit(InterfaceEditor(bs), lines)) == Times(bs, HeaderCount(lines, PPPOE))
            <==> HeaderCount(lines, PPPOE) == 0 || forall b :: b in bs ==> Canonical(b) && b != EMPTY
  {
    hide Canonical, ReadBindings, Edit, HeaderCount, AllOnOneLine, AsRead;
    var n := HeaderCount(lines, PPPOE);
    RebuiltBindings(bs, lines);
    AsReadSame(bs);
    if n > 0 && |AsRead(bs)| == |bs| {
      TimesEqual(AsRead(bs), bs, n);
    } else {
      TimesFewer(AsRead(bs), bs, n);
    }
  }

  lemma OneHeader()
    ensures HeaderCount(["[pppoe]"], PPPOE) == 1
  {
    hide Strip;
    var header: string := "[pppoe]";
    StripTrimmed(header);
    assert Lower(header) == PPPOE;
    assert [header][1..] == [];
  }

  lemma Eth0Canonical()
    ensures Canonical(Binding("eth0", "")) && OnOneLine(Binding("eth0", ""))
  {
    var name := "eth0";
    assert name == ['e', 't', 'h', '0'];
    assert forall c :: c in name ==> c in {'e', 't', 'h', '0'};
  }

  /** Two `[pppoe]` headers: one binding written is listed twice. */
  lemma TwoHeaders()
    ensures ReadBindings(Edit(InterfaceEditor([Binding("eth0", "")]), ["[pppoe]", "[pppoe]"])) ==
            [Binding("eth0", ""), Binding("eth0", "")]
  {
    hide ReadBindings, Edit, Strip, AsRead, Canonical, OnOneLine, HeaderCount;
    var eth0, header, lines: seq<string> := Binding("eth0", ""), "[pppoe]", ["[pppoe]", "[pppoe]"];
    OneHeader();
    HeaderCountAppend([header], [header], PPPOE);
    assert lines == [header] + [header];
    Eth0Canonical();
    RoundTripIff([eth0], lines);
    NoTimes([eth0]);
    assert Times([eth0], 1) == [eth0] + Times([eth0], 0) == [eth0];
    assert Times([eth0], 2) == [eth0] + Times([eth0], 1);
  }

  /** The bindings that render to blanks, whose lines the parser does not list. */
  function Blanks(bs: seq<Binding>): seq<Binding> {
    if bs == [] then [] else (if Strip(Rendered(bs[0])) == "" then [bs[0]] else []) + Blanks(bs[1..])
  }

  lemma {:induction false} BlanksIff(bs: seq<Binding>)
    requires AllOnOneLine(bs)
    ensures Blanks(bs) == [] <==> AllRenderable(bs)
  {
    hide Strip, Rendered, OneLine;
    if bs != [] {
      assert bs[0] in bs && forall b :: b in bs <==> b == bs[0] || b in bs[1..];
      BlanksIff(bs[1..]);
    }
  }

  lemma {:induction false} BlockVisible(bs: seq<Binding>, e: Editor)
    requires AllOnOneLine(bs) && e.section == PPPOE
    requires forall l {:trigger Owned(e, l)} :: Owned(e, l) <==> Matches(KeyWithValue(IFACE), l)
    ensures |Visible(e, RenderEach(bs), true)| == |Blanks(bs)|
  {
    hide Matches, BindingOf, ValueOf, Strip, OnOneLine, Rendered, IsHeader, Owned;
    if bs != [] {
      var first, rest := IFACE + "=" + Rendered(bs[0]), RenderEach(bs[1..]);
      RenderedLine(bs[0]);
      BlockVisible(bs[1..], e);
      assert RenderEach(bs) == [first] + rest && ([first] + rest)[1..] == rest;
    }
  }

  lemma OwnersAgree(bs: seq<Binding>)
    ensures forall l {:trigger Owned(InterfaceEditor(bs), l)} ::
              Owned(InterfaceEditor(bs), l) <==> Matches(KeyWithValue(IFACE), l)
  {
    hide Matches, Owned, InterfaceEditor;
    forall l {:trigger Owned(InterfaceEditor(bs), l)}
      ensures Owned(InterfaceEditor(bs), l) <==> Matches(KeyWithValue(IFACE), l)
    {
      InterfaceOwns(bs, l);
    }
  }

  /** How much one line contributes to the rebuilt text and to what is visible in it. */
  lemma PassLengths(bs: seq<Binding>, raw: string, inside: bool, written: bool)
    requires AllOnOneLine(bs)
    ensures var e, hit := InterfaceEditor(bs), inside && IfaceMatch(Strip(raw)).Some?;
            var out := Emit(e, raw, inside, Flag(written));
            var n := if inside && !written && (IsHeader(raw) || hit) then 1 else 0;
            && |out| == |Visible(e, [raw], inside)| + |Times(bs, n)|
            && |Visible(e, out, inside)| == |Visible(e, [raw], inside)| + |Times(Blanks(bs), n)|
            && End(out, {PPPOE}, inside) == Next(raw, {PPPOE}, inside)
  {
    hide IsHeader, Opens, Strip, IfaceMatch, Matches, Emit, Mark, Missing, AllOnOneLine, RenderEach, Blanks, Owned, Orderly, Covers, Times;
    var e := InterfaceEditor(bs);
    InterfacePass(bs, raw, inside, written);
    InterfaceEditorOrderly(bs);
    EndOfEmit(e, raw, inside, Flag(written), {PPPOE}, inside);
    VisibleOne(e, raw, inside);
    IfaceMatchIff(Strip(raw));
    InterfaceOwns(bs, Strip(raw));
    OwnersAgree(bs);
    BlockVisible(bs, e);
    TimesSame(bs, 1);
    TimesSame(Blanks(bs), 1);
    NoTimes(bs);
    NoTimes(Blanks(bs));
    BindingsOfRendered(bs);
    EndWithoutHeaders(RenderEach(bs), {PPPOE}, inside);
    VisibleAppend(e, RenderEach(bs), [raw], inside);
    assert [] + [raw] == [raw];
    NothingVisible(e, inside);
  }

  lemma NothingVisible(e: Editor, inside: bool)
    ensures Visible(e, [], inside) == []
  {
  }

  lemma {:induction false} TimesLength(bs: seq<Binding>, n: nat, m: nat)
    ensures |Times(bs, n + m)| == |Times(bs, n)| + |Times(bs, m)|
  {
    if n > 0 {
      TimesLength(bs, n - 1, m);
    }
  }

  lemma EndLengths(bs: seq<Binding>, inside: bool, written: bool)
    requires AllOnOneLine(bs)
    ensures var e, n := InterfaceEditor(bs), if inside && !written then 1 else 0;
            var out := Edited(e, [], inside, Flag(written));
            && |out| == |Times(bs, n)| && |Visible(e, out, inside)| == |Times(Blanks(bs), n)|
  {
    hide IsHeader, Opens, Strip, IfaceMatch, Matches, Emit, Mark, Missing, AllOnOneLine, RenderEach, Blanks, Owned, Times;
    InterfacePass(bs, "", inside, written);
    OwnersAgree(bs);
    BlockVisible(bs, InterfaceEditor(bs));
    TimesSame(bs, 1);
    TimesSame(Blanks(bs), 1);
    NoTimes(bs);
    NoTimes(Blanks(bs));
    NothingVisible(InterfaceEditor(bs), inside);
  }

  /** One line of the rebuilt text, of what is visible in it, and of the headers. */
  lemma {:induction false} RebuildStep(bs: seq<Binding>, lines: seq<string>, inside: bool, written: bool)
    requires lines != []
    ensures var e, raw, rest, in' := InterfaceEditor(bs), lines[0], lines[1..], Next(lines[0], {PPPOE}, inside);
            var hit := inside && IfaceMatch(Strip(raw)).Some?;
            var written' := if IsHeader(raw) then false else hit || written;
            && Edited(e, lines, inside, Flag(written)) ==
               Emit(e, raw, inside, Flag(written)) + Edited(e, rest, in', Flag(written'))
            && Visible(e, lines, inside) == Visible(e, [raw], inside) + Visible(e, rest, in')
            && HeaderCount(lines, PPPOE) + (if inside && !written then 1 else 0) ==
               (if inside && !written && (IsHeader(raw) || hit) then 1 else 0)
               + HeaderCount(rest, PPPOE) + (if in' && !written' then 1 else 0)
  {
    hide IsHeader, Opens, Strip, IfaceMatch, Emit, Mark, Missing, RenderEach, Hidden, InterfaceSlot, Flag;
    InterfacePass(bs, lines[0], inside, written);
    VisibleOne(InterfaceEditor(bs), lines[0], inside);
  }

  lemma {:induction false} RebuildLengths(bs: seq<Binding>, lines: seq<string>, inside: bool, written: bool)
    requires AllOnOneLine(bs)
    ensures var e, n := InterfaceEditor(bs), HeaderCount(lines, PPPOE) + if inside && !written then 1 else 0;
            var out := Edited(e, lines, inside, Flag(written));
            && |out| == |Visible(e, lines, inside)| + |Times(bs, n)|
            && |Visible(e, out, inside)| == |Visible(e, lines, inside)| + |Times(Blanks(bs), n)|
  {
    hide IsHeader, Next, Strip, IfaceMatch, Emit, AllOnOneLine, Blanks, Times, InterfaceEditor, Flag, Edited, Visible, HeaderCount;
    var e := InterfaceEditor(bs);
    if lines == [] {
      NothingVisible(e, inside);
      NoLinesNoHeader(PPPOE);
      EndLengths(bs, inside, written);
    } else {
      var raw, in' := lines[0], Next(lines[0], {PPPOE}, inside);
      var hit := inside && IfaceMatch(Strip(raw)).Some?;
      var written' := if IsHeader(raw) then false else hit || written;
      var k := if inside && !written && (IsHeader(raw) || hit) then 1 else 0;
      var n := HeaderCount(lines[1..], PPPOE) + if in' && !written' then 1 else 0;
      RebuildStep(bs, lines, inside, written);
      RebuildLengths(bs, lines[1..], in', written');
      PassLengths(bs, raw, inside, written);
      InterfaceSection(bs);
      VisibleAppend(e, Emit(e, raw, inside, Flag(written)), Edited(e, lines[1..], in', Flag(written')), inside);
      TimesLength(bs, k, n);
      TimesLength(Blanks(bs), k, n);
    }
  }

  /** Rebuilding keeps, in order, every line without the key `interface` in `[pppoe]`,
      whatever the bindings are. The lines the parser does not list stay as they are, and
      rebuilding again changes nothing, exactly if every binding renders to a value (or there
      is no header): otherwise every rebuild adds a bare `interface=` line for each header and
      blank binding. */
  lemma RebuildKeepsRest(bs: seq<Binding>, lines: seq<string>)
    requires AllOnOneLine(bs)
    ensures var e := InterfaceEditor(bs);
            var harmless := HeaderCount(lines, PPPOE) == 0 || AllRenderable(bs);
            && Visible(INTERFACE_MASK, Edit(e, lines), false) == Visible(INTERFACE_MASK, lines, false)
            && (Visible(e, Edit(e, lines), false) == Visible(e, lines, false) <==> harmless)
            && (Edit(e, Edit(e, lines)) == Edit(e, lines) <==> harmless)
            && |Visible(e, Edit(e, lines), false)| ==
               |Visible(e, lines, false)| + |Times(Blanks(bs), HeaderCount(lines, PPPOE))|
  {
    hide AllOnOneLine, AllRenderable, Edited, Visible, Orderly, Covers, Tidy, Blanks, HeaderCount, InterfaceEditor;
    var e, n := InterfaceEditor(bs), HeaderCount(lines, PPPOE);
    InterfaceEditorOrderly(bs);
    VisibleEdited(INTERFACE_MASK, e, lines, false, {});
    HeaderCountEdit(e, lines, PPPOE);
    RebuildLengths(bs, lines, false, false);
    RebuildLengths(bs, Edit(e, lines), false, false);
    BlanksIff(bs);
    InterfaceSection(bs);
    if n == 0 {
      NoSectionNoEdit(e, lines, {});
    } else if AllRenderable(bs) {
      InterfaceEditorTidy(bs);
      TidyCovers(e);
      VisibleEdited(e, e, lines, false, {});
      EditTwice(e, lines);
    } else {
      TimesFewer([], Blanks(bs), n);
    }
  }

  lemma InterfaceSection(bs: seq<Binding>)
    ensures InterfaceEditor(bs).section == PPPOE
  {
  }

  // ---------------------------------------------------------------------------
  // What the parser lists can be written again
  // ---------------------------------------------------------------------------

  /** Every listed binding is canonical, and renders to a line unless it is the empty
      binding that `interface=,` yields. */
  lemma {:induction false} ListedCanonical(body: seq<string>, b: Binding)
    requires b in Bindings(body) && OneLineEach(body)
    ensures Canonical(b) && (b != EMPTY ==> Renderable(b))
  {
    hide Matches, BindingOf, ValueOf, Renderable, Canonical, OneLine;
    if Matches(KeyWithValue(IFACE), body[0]) && b == BindingOf(ValueOf(body[0])) {
      assert body[0] in body;
      ParsedCanonical(body[0]);
    } else {
      ListedCanonical(body[1..], b);
    }
  }

  lemma ParsedCanonical(line: string)
    requires OneLine(line)
    ensures var b := BindingOf(ValueOf(line)); Canonical(b) && (b != EMPTY ==> Renderable(b))
  {
    hide Strip;
    var v := ValueOf(line);
    if HasEq(line) {
      OneLineSlice(line, Find(line, '=') + 1, |line|);
      OneLineStrip(line[Find(line, '=') + 1..]);
    }
    assert OneLine(v);
    var i, b := Find(v, ','), BindingOf(v);
    OneLineSlice(v, 0, i);
    OneLineStrip(v[..i]);
    if i < |v| {
      OneLineSlice(v, i + 1, |v|);
      OneLineStrip(v[i + 1..]);
    }
    NamePartHasNoComma(v);
    if b != EMPTY {
      RenderedVisible(b);
    }
  }

  lemma RenderedVisible(b: Binding)
    requires Canonical(b) && b != EMPTY
    ensures Strip(Rendered(b)) != ""
  {
    var v := Rendered(b);
    assert v[0] == if b.name != "" then b.name[0] else ',';
    assert FirstVisible(v, 0) == 0;
    assert AfterVisible(v, 0, |v|) > 0;
  }

  /** `interface=,` is listed as an empty binding, and writing that binding gives a line the
      parser no longer lists. */
  lemma EmptyBindingIsLost()
    ensures Bindings(["interface=,"]) == [EMPTY]
    ensures Bindings(StripEach(RenderEach([EMPTY]))) == []
  {
    hide Strip, ValueOf, BindingOf, HasKey;
    IfaceKey();
    WrittenKeyLine(IFACE, ",");
    CommaOnly();
    StripTrimmed("interface=,");
    assert IFACE + "=" + "," == "interface=,";
    assert ["interface=,"][1..] == [];
    WrittenKeyLine(IFACE, "");
    StripTrimmed("");
    assert StripEach(RenderEach([EMPTY])) == [Strip(IFACE + "=" + "")];
    assert [Strip(IFACE + "=" + "")][1..] == [];
  }

  lemma CommaOnly()
    ensures Strip(",") == "," && BindingOf(",") == EMPTY
  {
    hide Strip;
    StripTrimmed(",");
    StripTrimmed("");
    var comma := ",";
    assert comma[0] == ',' && Find(comma, ',') == 0;
    assert comma[..0] == "" && comma[1..] == "";
  }

  // ---------------------------------------------------------------------------
  // Adding and removing, as the parser sees it
  // ---------------------------------------------------------------------------

  lemma Listed(lines: seq<string>)
    requires OneLineEach(lines)
    ensures forall b :: b in ReadBindings(lines) ==> OnOneLine(b) && Canonical(b)
  {
    hide Canonical, OnOneLine, Renderable, Body, Bindings, OneLine, OneLineEach;
    BodyOneLine(lines, {PPPOE}, false);
    forall b | b in ReadBindings(lines)
      ensures OnOneLine(b) && Canonical(b)
    {
      ListedCanonical(Body(lines, {PPPOE}, false), b);
      RenderableOrEmpty(b);
    }
  }

  lemma RenderableOrEmpty(b: Binding)
    ensures Renderable(b) || b == EMPTY ==> OnOneLine(b)
  {
  }

  lemma {:induction false} WithoutAppend(a: seq<Binding>, b: seq<Binding>, name: string)
    ensures Without(a + b, name) == Without(a, name) + Without(b, name)
  {
    if a == [] {
      assert a + b == b;
    } else {
      assert (a + b)[1..] == a[1..] + b && (a + b)[0] == a[0];
      WithoutAppend(a[1..], b, name);
      var first := if a[0].name != name then [a[0]] else [];
      assert first + (Without(a[1..], name) + Without(b, name)) == first + Without(a[1..], name) + Without(b, name);
    }
  }

  lemma {:induction false} WithoutNone(bs: seq<Binding>, name: string)
    requires name !in Names(bs)
    ensures Without(bs, name) == bs
  {
    if bs != [] {
      assert Names(bs)[1..] == Names(bs[1..]);
      WithoutNone(bs[1..], name);
    }
  }

  lemma WithoutNew(bs: seq<Binding>, b: Binding)
    requires b.name !in Names(bs)
    ensures Without(bs + [b], b.name) == bs
  {
    hide Names;
    WithoutAppend(bs, [b], b.name);
    WithoutNone(bs, b.name);
    assert Without([b], b.name) == [];
    assert bs + [] == bs;
  }

  lemma {:induction false} WithoutTimes(bs: seq<Binding>, b: Binding, n: nat)
    requires b.name !in Names(bs)
    ensures Without(Times(bs + [b], n), b.name) == Times(bs, n)
  {
    hide Names, Without;
    if n == 0 {
      NoneLeft(b.name);
    } else {
      WithoutTimes(bs, b, n - 1);
      WithoutAppend(bs + [b], Times(bs + [b], n - 1), b.name);
      WithoutNew(bs, b);
    }
  }

  lemma NoneLeft(name: string)
    ensures Without([], name) == []
  {
  }

  lemma {:induction false} AsReadAppend(a: seq<Binding>, b: seq<Binding>)
    ensures AsRead(a + b) == AsRead(a) + AsRead(b)
  {
    hide Strip, Rendered, Normal;
    if a == [] {
      assert a + b == b;
    } else {
      assert (a + b)[1..] == a[1..] + b && (a + b)[0] == a[0];
      AsReadAppend(a[1..], b);
      var first := if Strip(Rendered(a[0])) == "" then [] else [Normal(a[0])];
      assert first + (AsRead(a[1..]) + AsRead(b)) == first + AsRead(a[1..]) + AsRead(b);
    }
  }

  /** Writing a listing keeps its bindings but for the empty ones. */
  lemma {:induction false} AsReadIn(bs: seq<Binding>)
    requires forall b :: b in bs ==> Canonical(b)
    ensures forall b :: b in AsRead(bs) ==> b in bs && b != EMPTY
    ensures EMPTY in bs <==> |AsRead(bs)| < |bs|
  {
    hide Canonical, Normal, Rendered, Strip;
    if bs != [] {
      var b, rest := bs[0], bs[1..];
      assert b in bs;
      RoundTripIffCanonical(b);
      BlankIsEmpty(b);
      AsReadIn(rest);
    }
  }

  lemma {:induction false} NamesIn(bs: seq<Binding>, name: string)
    ensures name in Names(bs) <==> exists b :: b in bs && b.name == name
  {
    if bs != [] {
      NamesIn(bs[1..], name);
      assert Names(bs)[1..] == Names(bs[1..]);
    }
  }

  /** What the request patterns let through for a new binding: a name without outer blanks or
      commas, and any options on one line; the name is not listed yet. */
  predicate New(b: Binding, listed: seq<Binding>) {
    Renderable(b) && Trimmed(b.name) && ',' !in b.name && b.name !in Names(listed)
  }

  /** What a file lists after a new binding is added: the old ones without the empty ones,
      and the new one with its options trimmed, once per `[pppoe]` header. So it is the old
      list and the new binding exactly if there is one header and no empty binding. */
  lemma ListedAfterAdd(lines: seq<string>, b: Binding)
    requires OneLineEach(lines) && New(b, ReadBindings(lines))
    ensures var current, n := ReadBindings(lines), HeaderCount(lines, PPPOE);
            var added := ReadBindings(Edit(InterfaceEditor(current + [b]), lines));
            && Normal(b) == Binding(b.name, Strip(b.options))
            && added == Times(AsRead(current) + [Normal(b)], n)
            && (added == current + [Normal(b)] <==> n == 1 && EMPTY !in current)
  {
    hide Canonical, OnOneLine, ReadBindings, Edit, HeaderCount, Times, OneLineEach, Names, AsRead, Renderable, Normal, Strip;
    var current, n := ReadBindings(lines), HeaderCount(lines, PPPOE);
    Listed(lines);
    NewNormal(b);
    RebuiltBindings(current + [b], lines);
    AddedAsRead(current, b);
    TimesSame(AsRead(current) + [Normal(b)], n);
    AsReadIn(current);
    AsReadSame(current);
    if n > 1 || n == 0 {
      OnlyNewOnce(current, AsRead(current), Normal(b), n);
    }
    if n == 1 && AsRead(current) + [Normal(b)] == current + [Normal(b)] {
      assert (AsRead(current) + [Normal(b)])[..|AsRead(current)|] == AsRead(current)
             && (current + [Normal(b)])[..|current|] == current;
    }
  }

  lemma NewNormal(b: Binding)
    requires Renderable(b) && Trimmed(b.name) && ',' !in b.name
    ensures Normal(b) == Binding(b.name, Strip(b.options)) && OnOneLine(b)
  {
    hide Rendered, Strip;
    NormalOfName(b);
    StripTrimmed(b.name);
  }

  lemma AddedAsRead(current: seq<Binding>, b: Binding)
    requires Renderable(b)
    ensures AsRead(current + [b]) == AsRead(current) + [Normal(b)]
  {
    hide Normal, Rendered, Strip;
    AsReadAppend(current, [b]);
    assert AsRead([b]) == [Normal(b)] + AsRead([]);
  }

  function Count(bs: seq<Binding>, b: Binding): nat {
    multiset(bs)[b]
  }

  /** With no header or several, the new binding is not listed exactly once. */
  lemma OnlyNewOnce(current: seq<Binding>, kept: seq<Binding>, b: Binding, n: nat)
    requires n != 1 && b.name !in Names(current)
    ensures Times(kept + [b], n) != current + [b]
  {
    NamesIn(current, b.name);
    assert Count(current + [b], b) == 1;
    if n == 0 {
      NoTimes(kept + [b]);
      assert Count([], b) == 0;
    } else {
      TimesCount(kept, b, n);
    }
  }

  lemma {:induction false} TimesCount(kept: seq<Binding>, b: Binding, n: nat)
    ensures Count(Times(kept + [b], n), b) >= n
  {
    if n > 0 {
      TimesCount(kept, b, n - 1);
    }
  }

  /** Removing the name just added restores the listing exactly if the file has one `[pppoe]`
      header and no empty binding, or nothing was listed. */
  lemma RemoveUndoesAdd(lines: seq<string>, b: Binding)
    requires OneLineEach(lines) && New(b, ReadBindings(lines))
    ensures var current := ReadBindings(lines);
            var added := Edit(InterfaceEditor(current + [b]), lines);
            var removed := Edit(InterfaceEditor(Without(ReadBindings(added), b.name)), added);
            ReadBindings(removed) == current
            <==> (HeaderCount(lines, PPPOE) == 1 && EMPTY !in current) || current == []
  {
    hide Canonical, OnOneLine, ReadBindings, Edit, HeaderCount, Times, OneLineEach, Names, Without, AsRead, Renderable, Normal, Strip;
    var current, n := ReadBindings(lines), HeaderCount(lines, PPPOE);
    var kept := AsRead(current);
    Listed(lines);
    NewNormal(b);
    RebuiltBindings(current + [b], lines);
    AddedAsRead(current, b);
    var added := Edit(InterfaceEditor(current + [b]), lines);
    AsReadIn(current);
    AsReadSame(current);
    NamesIn(current, b.name);
    NamesIn(kept, b.name);
    WithoutTimes(kept, Normal(b), n);
    TimesIn(kept, n);
    AsReadSame(Times(kept, n));
    RebuiltBindings(Times(kept, n), added);
    TimesTwice(kept, current, n);
  }

  lemma TimesTwice(kept: seq<Binding>, current: seq<Binding>, n: nat)
    requires |kept| <= |current|
    requires |kept| == |current| ==> kept == current
    requires forall b :: b in kept ==> b != EMPTY
    requires |kept| < |current| <==> EMPTY in current
    ensures Times(Times(kept, n), n) == current <==> (n == 1 && EMPTY !in current) || current == []
  {
    hide Times;
    TimesSame(kept, n);
    TimesIn(kept, n);
    TimesIn(Times(kept, n), n);
    if n == 0 {
      NoTimes(kept);
      NoTimes(Times(kept, 0));
    }
  }
}
