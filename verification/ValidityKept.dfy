/** Which edits keep a valid configuration valid. Editors and validator recognise section
    headers by different rules; what the editors write always lands after a header that
    both recognise. */
module ValidityKept {
  import opened Text
  import opened Patterns
  import opened Sections
  import opened KeyLines
  import Ipv4
  import V = Validator
  import opened ValidatorMeaning
  import PI = PppoeInterfaces
  import IP = IpPool
  import CL = ConnectionLimits
  import PD = PadoDelay
  import PR = PppoeRuntime
  import opened R = Readings

  // ---------------------------------------------------------------------------
  // Editing and scanning
  // ---------------------------------------------------------------------------

  lemma {:induction false} NamesAppend(a: seq<string>, b: seq<string>)
    ensures V.HeaderNames(a + b) == V.HeaderNames(a) + V.HeaderNames(b)
  {
    hide V.Header;
    if a == [] {
      assert a + b == b;
    } else {
      assert (a + b)[1..] == a[1..] + b;
      NamesAppend(a[1..], b);
    }
  }

  lemma {:induction false} ScanAppend(a: seq<string>, b: seq<string>, seen: bool)
    ensures ScanOk(a + b, seen) <==> ScanOk(a, seen) && ScanOk(b, seen || V.HeaderNames(a) != [])
  {
    hide V.Header, Plain, LinePasses;
    if a == [] {
      assert a + b == b;
    } else {
      assert (a + b)[1..] == a[1..] + b;
      ScanAppend(a[1..], b, seen || V.Header(a[0]).Some?);
    }
  }

  /** The validator's headers are headers for the editors. */
  lemma StrictIsHeader(raw: string)
    ensures V.Header(raw).Some? ==> IsHeader(raw)
  {
    hide Strip;
  }

  lemma {:induction false} NoNames(xs: seq<string>)
    requires NoHeaders(xs)
    ensures V.HeaderNames(xs) == []
  {
    hide IsHeader, V.Header;
    if xs != [] {
      assert xs[0] in xs;
      StrictIsHeader(xs[0]);
      NoNames(xs[1..]);
    }
  }

  lemma {:induction false} WrittenScan(xs: seq<string>)
    requires forall x :: x in xs ==> LinePasses(x)
    ensures ScanOk(xs, true)
  {
    hide LinePasses, Plain, V.Header;
    if xs != [] {
      assert xs[0] in xs;
      WrittenScan(xs[1..]);
    }
  }

  lemma OneScan(raw: string, seen: bool)
    ensures ScanOk([raw], seen) <==> (Plain(raw) ==> seen && LinePasses(raw))
    ensures V.HeaderNames([raw]) == if V.Header(raw).Some? then [V.Header(raw).value] else []
  {
    hide LinePasses, Plain, V.Header;
    assert [raw][1..] == [];
  }

  /** Whatever opens the section for the editor is a header for the validator too. */
  ghost predicate StrictSection(section: string) {
    forall raw {:trigger Opens(raw, {section})} :: Opens(raw, {section}) ==> V.Header(raw).Some?
  }

  lemma BracketsStrict(section: string, raw: string)
    requires |section| >= 3 && section[0] == '[' && section[|section| - 1] == ']'
    requires ']' !in section[1..|section| - 1]
    requires Lower(Strip(raw)) == section
    ensures V.Header(raw).Some?
  {
    hide Strip;
    var line := Strip(raw);
    var inner, lowered := line[1..|line| - 1], section[1..|section| - 1];
    assert Lower(line)[0] == LowerChar(line[0]) && Lower(line)[|line| - 1] == LowerChar(line[|line| - 1]);
    assert forall i :: 0 <= i < |inner| ==> lowered[i] == LowerChar(inner[i]) by {
      forall i | 0 <= i < |inner|
        ensures lowered[i] == LowerChar(inner[i])
      {
        assert inner[i] == line[i + 1] && lowered[i] == section[i + 1];
      }
    }
    assert forall i :: 0 <= i < |inner| ==> inner[i] != ']';
  }

  lemma EditedSectionsStrict()
    ensures StrictSection(PPPOE) && StrictSection(IP.POOLS)
  {
    hide V.Header;
    forall raw {:trigger Opens(raw, {PPPOE})} | Opens(raw, {PPPOE})
      ensures V.Header(raw).Some?
    {
      BracketsStrict(PPPOE, raw);
    }
    forall raw {:trigger Opens(raw, {IP.POOLS})} | Opens(raw, {IP.POOLS})
      ensures V.Header(raw).Some?
    {
      BracketsStrict(IP.POOLS, raw);
    }
  }

  /** Everything the editor writes passes the validator's rules. */
  predicate WritesPassing(e: Editor) {
    forall s :: s in e.slots ==> forall x :: x in s.lines ==> LinePasses(x)
  }

  lemma {:induction false} MissingPasses(slots: seq<Slot>, done: set<Pattern>)
    requires forall s :: s in slots ==> forall x :: x in s.lines ==> LinePasses(x)
    ensures forall x :: x in Missing(slots, done) ==> LinePasses(x)
  {
    hide LinePasses;
    if slots != [] {
      assert slots[0] in slots;
      MissingPasses(slots[1..], done);
    }
  }

  lemma EmitNames(e: Editor, raw: string, inside: bool, done: set<Pattern>)
    requires Orderly(e)
    ensures V.HeaderNames(Emit(e, raw, inside, done)) == V.HeaderNames([raw])
  {
    hide IsHeader, Strip, Matches, V.Header, V.HeaderNames;
    if inside && IsHeader(raw) {
      MissingPlain(e.slots, done);
      NoNames(Missing(e.slots, done));
      NamesAppend(Missing(e.slots, done), [raw]);
    } else if Hidden(e, raw, inside) {
      StrictIsHeader(raw);
      NoNames(Emit(e, raw, inside, done));
      OneScan(raw, true);
    }
  }

  /** An editor leaves the validator's sections and their counts as they were. */
  lemma {:induction false} NamesKept(e: Editor, lines: seq<string>, inside: bool, done: set<Pattern>)
    requires Orderly(e)
    ensures V.HeaderNames(Edited(e, lines, inside, done)) == V.HeaderNames(lines)
  {
    hide IsHeader, Strip, Matches, V.Header, Emit, Mark, Next, Orderly;
    if lines == [] {
      MissingPlain'(e, done);
      NoNames(Missing(e.slots, done));
      NoNames([]);
    } else {
      var in', done' := Next(lines[0], {e.section}, inside), Mark(e, lines[0], inside, done);
      NamesAppend(Emit(e, lines[0], inside, done), Edited(e, lines[1..], in', done'));
      EmitNames(e, lines[0], inside, done);
      OneScan(lines[0], true);
      NamesKept(e, lines[1..], in', done');
    }
  }

  lemma MissingPlain'(e: Editor, done: set<Pattern>)
    requires Orderly(e)
    ensures NoHeaders(Missing(e.slots, done)) && NoHeaders([])
  {
    hide IsHeader, Strip, Matches;
    MissingPlain(e.slots, done);
  }

  lemma EmitScan(e: Editor, raw: string, inside: bool, done: set<Pattern>, seen: bool)
    requires Orderly(e) && WritesPassing(e) && (inside ==> seen)
    requires ScanOk([raw], seen)
    ensures ScanOk(Emit(e, raw, inside, done), seen)
  {
    hide IsHeader, Strip, Matches, V.Header, V.HeaderNames, LinePasses, ScanOk;
    if inside && IsHeader(raw) {
      MissingPasses(e.slots, done);
      WrittenScan(Missing(e.slots, done));
      ScanAppend(Missing(e.slots, done), [raw], seen);
    } else if Hidden(e, raw, inside) {
      WrittenScan(Emit(e, raw, inside, done));
    }
  }

  /** An editor that writes passing lines keeps a passing text passing. */
  lemma {:induction false} ScanKept(e: Editor, lines: seq<string>, inside: bool, done: set<Pattern>, seen: bool)
    requires Orderly(e) && WritesPassing(e) && StrictSection(e.section) && (inside ==> seen)
    requires ScanOk(lines, seen)
    ensures ScanOk(Edited(e, lines, inside, done), seen)
  {
    hide IsHeader, Strip, Matches, V.Header, V.HeaderNames, Emit, Mark, Orderly, LinePasses, Plain, WritesPassing;
    if lines == [] {
      if inside {
        MissingPasses'(e, done);
        WrittenScan(Missing(e.slots, done));
      }
    } else {
      var raw := lines[0];
      var in', done' := Next(raw, {e.section}, inside), Mark(e, raw, inside, done);
      OneScan(raw, seen);
      EmitScan(e, raw, inside, done, seen);
      EmitNames(e, raw, inside, done);
      var seen' := seen || V.Header(raw).Some?;
      assert in' ==> seen';
      ScanKept(e, lines[1..], in', done', seen');
      ScanAppend(Emit(e, raw, inside, done), Edited(e, lines[1..], in', done'), seen);
    }
  }

  lemma MissingPasses'(e: Editor, done: set<Pattern>)
    requires WritesPassing(e)
    ensures forall x :: x in Missing(e.slots, done) ==> LinePasses(x)
  {
    MissingPasses(e.slots, done);
  }

  lemma {:induction false} BodyPasses(lines: seq<string>, names: set<string>, inside: bool, seen: bool, x: string)
    requires ScanOk(lines, seen) && Strip(x) in Body(lines, names, inside)
    ensures LinePasses(x)
  {
    hide Strip, Opens, V.KeyValue, V.Passes;
    var raw := lines[0];
    if inside && !IsHeader(raw) && Strip(raw) == Strip(x) {
      StrictIsHeader(raw);
      if !V.ContentLine(raw) {
        NoKeyInComment(Strip(raw));
      }
    } else {
      BodyPasses(lines[1..], names, Next(raw, names, inside), seen || V.Header(raw).Some?, x);
    }
  }

  lemma NoKeyInComment(line: string)
    ensures line == "" || line[0] == '#' ==> V.KeyValue(line).None?
  {
    assert line == "" || line[0] == '#' ==> V.KeyEnd(line, 0) == 0;
  }

  /** Editing a valid text that has the section leaves it valid exactly if everything the
      editor writes passes the validator's rules; and its sections stay as they were. */
  lemma ValidAfterEditIff(e: Editor, lines: seq<string>)
    requires Orderly(e) && StrictSection(e.section)
    requires Valid(lines) && HeaderCount(lines, e.section) > 0
    ensures Valid(Edit(e, lines)) <==> WritesPassing(e)
  {
    hide Valid, ScanOk, V.HeaderNames, LinePasses, Edited, Orderly, StrictSection, HeaderCount;
    ValidIffScan(lines);
    ValidIffScan(Edit(e, lines));
    NamesKept(e, lines, false, {});
    if WritesPassing(e) {
      ScanKept(e, lines, false, {}, false);
    }
    if Valid(Edit(e, lines)) {
      forall s | s in e.slots
        ensures forall x :: x in s.lines ==> LinePasses(x)
      {
        forall x | x in s.lines
          ensures LinePasses(x)
        {
          WrittenPresent(e, lines, false, {}, s, x);
          BodyPasses(Edit(e, lines), {e.section}, false, false, x);
        }
      }
    }
  }

  /** Without the section nothing changes, so an editor that writes passing lines never turns
      a valid text into an invalid one. */
  lemma ValidKept(e: Editor, lines: seq<string>)
    requires Orderly(e) && StrictSection(e.section) && WritesPassing(e) && Valid(lines)
    ensures Valid(Edit(e, lines))
  {
    hide Valid, Orderly, StrictSection, WritesPassing;
    if HeaderCount(lines, e.section) == 0 {
      NoSectionNoEdit(e, lines, {});
    } else {
      ValidAfterEditIff(e, lines);
    }
  }

  // ---------------------------------------------------------------------------
  // What the editors write
  // ---------------------------------------------------------------------------

  lemma KeyValueOfWritten(key: string, value: string)
    requires KeyName(key)
    ensures V.KeyValue(Strip(key + "=" + value)) == Some(V.Setting(key, Strip(value)))
  {
    hide Strip, HasKey, ValueOf;
    WrittenKeyLine(key, value);
    var line := key + "=" + RStrip(value);
    var n := |key|;
    assert forall i :: 0 <= i < n ==> line[i] == key[i];
    assert line[n] == '=';
    assert V.KeyEnd(line, 0) == n;
    assert line[n..][0] == '=' && FirstVisible(line[n..], 0) == 0;
    assert line[n..][0..] == line[n..] && line[n..][1..] == RStrip(value) && line[..n] == key;
    StripRStrip(value);
  }

  lemma DigitsPass(key: string, value: string)
    requires AllDigits(value) && key !in V.PORT_KEYS
    ensures V.Passes(V.Setting(key, value))
  {
    hide V.Passes;
    V.PlainPasses(V.Setting(key, value));
    SplitOne(value, '.');
  }

  lemma PoolEntryPasses(pool: Pool)
    requires IP.Proper(pool)
    ensures LinePasses(pool.range + "," + pool.name)
  {
    hide *;
    IP.ProperParts(pool);
    WrittenPoolLine(pool.name, pool.range);
    NoKeyInRange(pool.range, "," + RStrip(pool.name));
    RangeLine(pool, Strip(pool.range + "," + pool.name));
    KeylessPasses(pool.range + "," + pool.name);
  }

  lemma KeylessPasses(raw: string)
    requires V.KeyValue(Strip(raw)).None?
    ensures LinePasses(raw)
  {
    hide Strip, V.KeyValue, V.Passes;
  }

  lemma RangeLine(pool: Pool, line: string)
    requires line == pool.range + "," + RStrip(pool.name)
    ensures line == pool.range + ("," + RStrip(pool.name))
  {
    hide *;
  }

  /** The leading digits of a range are followed by a dot, so the line has no key. */
  lemma NoKeyInRange(range: string, rest: string)
    requires RangeShaped(range)
    ensures V.KeyValue(range + rest).None?
  {
    RangeHasDot(range);
    var n := DigitsEnd(range, 0);
    var line := range + rest;
    hide RangeShaped;
    assert forall i :: 0 <= i < |range| ==> line[i] == range[i];
    assert V.KeyEnd(line, 0) == n;
    assert line[n..][0] == '.' && FirstVisible(line[n..], 0) == 0;
  }

  lemma RangeHasDot(range: string)
    requires RangeShaped(range)
    ensures var n := DigitsEnd(range, 0); n < |range| && range[n] == '.'
  {
    var seps := ".../";
    assert seps[0] == '.' && seps != "";
  }

  /** The value of an update, if it sets one, passes the rules. */
  predicate UpdatePasses(u: Update) {
    u.value.Some? ==> V.Passes(V.Setting(u.key, Strip(u.value.value)))
  }

  lemma KeyEditorPasses(us: seq<Update>, reset: bool)
    requires KeyLines.Proper(us)
    ensures WritesPassing(KeyEditor(us, reset)) <==> forall u :: u in us ==> UpdatePasses(u)
  {
    hide Strip, V.Passes, OneLine;
    var e := KeyEditor(us, reset);
    forall i | 0 <= i < |us|
      ensures (forall x :: x in e.slots[i].lines ==> LinePasses(x)) <==> UpdatePasses(us[i])
    {
      var u := us[i];
      assert u in us;
      if u.value.Some? {
        KeyValueOfWritten(u.key, u.value.value);
        assert u.key + "=" + u.value.value in e.slots[i].lines;
      }
    }
    if WritesPassing(e) {
      forall u | u in us
        ensures UpdatePasses(u)
      {
        var i :| 0 <= i < |us| && us[i] == u;
        assert e.slots[i] in e.slots;
      }
    }
    if forall u :: u in us ==> UpdatePasses(u) {
      forall s | s in e.slots
        ensures forall x :: x in s.lines ==> LinePasses(x)
      {
        var i :| 0 <= i < |us| && e.slots[i] == s;
        assert us[i] in us;
      }
    }
  }

  lemma NumberPasses(key: string, n: nat)
    requires key !in V.PORT_KEYS
    ensures UpdatePasses(Update(key, Some(Decimal(n))))
  {
    hide V.Passes, Decimal, Strip;
    DecimalReads(n);
    DigitsPass(key, Decimal(n));
  }

  lemma NotPortKeys()
    ensures "max-sessions" !in V.PORT_KEYS && "max-starting" !in V.PORT_KEYS && "verbose" !in V.PORT_KEYS
    ensures PD.DELAY !in V.PORT_KEYS && PD.SESSIONS !in V.PORT_KEYS
  {
    assert |"tcp"| == 3 && |"auth-port"| == 9 && |"acct-port"| == 9 && |"port"| == 4 && |"cli-port"| == 8;
    assert |"max-sessions"| == 12 && |"max-starting"| == 12 && |"verbose"| == 7 && |PD.DELAY| == 10 && |PD.SESSIONS| == 19;
  }

  lemma NothingPasses(key: string)
    ensures UpdatePasses(Update(key, None))
  {
  }

  lemma LimitsPass(ms: Option<nat>, mst: Option<nat>)
    ensures WritesPassing(CL.LimitsEditor(ms, mst))
  {
    hide Decimal, KeyLines.Proper, UpdatePasses, WritesPassing;
    NotPortKeys();
    LimitUpdatesProper(ms, mst);
    KeyEditorPasses(CL.LimitUpdates(ms, mst), true);
    if ms.Some? {
      NumberPasses("max-sessions", ms.value);
    }
    if mst.Some? {
      NumberPasses("max-starting", mst.value);
    }
  }

  lemma DelayPasses(d: nat, m: nat)
    ensures WritesPassing(PD.DelayEditor(d, m))
  {
    hide Decimal, KeyLines.Proper, UpdatePasses, WritesPassing;
    NotPortKeys();
    DelayUpdatesProper(d, m);
    KeyEditorPasses(PD.DelayUpdates(d, m), true);
    NumberPasses(PD.DELAY, d);
    NumberPasses(PD.SESSIONS, m);
    NothingPasses(PD.SESSIONS);
  }

  lemma PoolsPass(pool: Pool, name: string)
    requires IP.Proper(pool)
    ensures WritesPassing(IP.AddEditor(pool)) && WritesPassing(IP.RemoveEditor(name))
  {
    hide LinePasses, IP.Proper;
    PoolEntryPasses(pool);
  }

  lemma RemovalPasses(name: string)
    ensures WritesPassing(IP.RemoveEditor(name))
  {
    hide LinePasses;
  }

  /** Setting limits or the PADO delay and adding or removing a pool never turn a text the
      validator accepts into one it rejects. */
  lemma EditsKeepValid(c: Change, lines: seq<string>)
    requires R.Proper(c) && !c.SetRuntime? && !c.SetInterfaces? && Valid(lines)
    ensures Valid(Edit(EditorOf(c), lines))
  {
    hide Valid, Edit, KeyLines.Proper, StrictSection, Orderly, Covers, WritesPassing, IP.Proper, CL.LimitsEditor, PD.DelayEditor, IP.AddEditor, IP.RemoveEditor;
    ChangeOrderly(c);
    EditedSectionsStrict();
    EditedSections(c);
    match c {
      case SetLimits(ms, mst) => LimitsPass(ms, mst);
      case SetDelay(d, m) => DelayPasses(d, m);
      case AddPool(pool) => PoolsPass(pool, "");
      case RemovePool(name) => RemovalPasses(name);
    }
    ValidKept(EditorOf(c), lines);
  }

  predicate NamePasses(key: string, name: Option<string>) {
    name.Some? ==> V.Passes(V.Setting(key, Strip(name.value)))
  }

  lemma RuntimePasses(sn: Option<string>, ac: Option<string>, v: Option<nat>)
    ensures (forall u :: u in PR.RuntimeUpdates(sn, ac, v) ==> UpdatePasses(u)) <==>
            NamePasses("service-name", sn) && NamePasses("ac-name", ac)
  {
    hide Decimal, V.Passes, Strip, PR.RuntimeUpdates;
    NotPortKeys();
    PR.RuntimeUpdatesShape(sn, ac, v);
    var us := PR.RuntimeUpdates(sn, ac, v);
    if v.Some? {
      NumberPasses("verbose", v.value);
    }
    assert sn.Some? ==> Update("service-name", sn) in us && (UpdatePasses(Update("service-name", sn)) <==> NamePasses("service-name", sn));
    assert ac.Some? ==> Update("ac-name", ac) in us && (UpdatePasses(Update("ac-name", ac)) <==> NamePasses("ac-name", ac));
  }

  /** Runtime settings keep a valid text valid exactly if the two names pass the IP and port
      rules: a name may look like an address. */
  lemma RuntimeValidIff(sn: Option<string>, ac: Option<string>, v: Option<nat>, lines: seq<string>)
    requires OneLineIf(sn) && OneLineIf(ac) && Valid(lines) && HeaderCount(lines, PPPOE) > 0
    ensures Valid(Edit(PR.RuntimeEditor(sn, ac, v), lines)) <==> NamePasses("service-name", sn) && NamePasses("ac-name", ac)
  {
    hide Valid, Edit, KeyLines.Proper, StrictSection, Orderly, Covers, OneLine, HeaderCount, WritesPassing, PR.RuntimeUpdates, UpdatePasses, NamePasses;
    ChangeOrderly(SetRuntime(sn, ac, v));
    EditedSectionsStrict();
    RuntimeUpdatesProper(sn, ac, v);
    KeyEditorPasses(PR.RuntimeUpdates(sn, ac, v), false);
    RuntimePasses(sn, ac, v);
    ValidAfterEditIff(PR.RuntimeEditor(sn, ac, v), lines);
  }

  /** Rebuilding the interface lines keeps a valid text valid exactly if every rendered
      binding passes the IP and port rules. */
  lemma InterfacesValidIff(bs: seq<PI.Binding>, lines: seq<string>)
    requires PI.AllOnOneLine(bs) && Valid(lines) && HeaderCount(lines, PPPOE) > 0
    ensures Valid(Edit(PI.InterfaceEditor(bs), lines)) <==>
            forall b :: b in bs ==> V.Passes(V.Setting(PI.IFACE, Strip(PI.Rendered(b))))
  {
    hide Valid, Edited, StrictSection, Orderly, Covers, V.Passes, Strip, HeaderCount, PI.Rendered, PI.OnOneLine, V.KeyValue;
    PI.InterfaceEditorOrderly(bs);
    PI.IfaceKey();
    EditedSectionsStrict();
    var e, xs := PI.InterfaceEditor(bs), PI.RenderEach(bs);
    ValidAfterEditIff(e, lines);
    forall i | 0 <= i < |bs|
      ensures LinePasses(xs[i]) <==> V.Passes(V.Setting(PI.IFACE, Strip(PI.Rendered(bs[i]))))
    {
      KeyValueOfWritten(PI.IFACE, PI.Rendered(bs[i]));
    }
    assert WritesPassing(e) <==> forall i :: 0 <= i < |xs| ==> LinePasses(xs[i]);
  }

  // ---------------------------------------------------------------------------
  // A name that spoils a valid file
  // ---------------------------------------------------------------------------

  lemma ShapedButNoAddress()
    ensures V.AddressShaped("300.1.1.1") && !Ipv4.IsAddress("300.1.1.1")
  {
    hide Split, Ipv4.IsOctet, Decimal;
    var one: string := ['1'];
    var first: string := ['3', '0', '0'];
    SplitOne(one, '.');
    SplitCons(one, '.', one);
    SplitCons(one, '.', one + ['.'] + one);
    SplitCons(first, '.', one + ['.'] + (one + ['.'] + one));
    var s := first + ['.'] + (one + ['.'] + (one + ['.'] + one));
    assert s == "300.1.1.1" && first == "300";
    assert Split(s, '.') == [first, one, one, one];
    assert Split(s, '.')[0] in Split(s, '.');
    NotAnOctet();
  }

  lemma NotAnOctet()
    ensures !Ipv4.IsOctet("300")
  {
    if n: nat :| n <= 255 && "300" == Decimal(n) {
      ParseDecimal(n);
      Value300();
    }
  }

  lemma Value300()
    ensures ParseNat("300") == 300
  {
    assert "300"[..2] == "30" && "30"[..1] == "3" && "3"[..0] == "";
    assert DigitValue('3') == 3 && DigitValue('0') == 0;
    assert ParseNat("3") == 3 && ParseNat("30") == 30;
  }

  lemma BadNameFails()
    ensures !V.Passes(V.Setting("service-name", "300.1.1.1"))
  {
    hide V.Passes, V.AddressShaped, Ipv4.IsAddress;
    ShapedButNoAddress();
    assert |"tcp"| == 3 && |"auth-port"| == 9 && |"acct-port"| == 9 && |"port"| == 4 && |"cli-port"| == 8 && |"service-name"| == 12;
    V.PlainPasses(V.Setting("service-name", "300.1.1.1"));
  }

  const SMALL_FILE := ["[modules]", "[pppoe]"]

  lemma BracketedHeader(name: string)
    requires name != "" && ']' !in name
    ensures var raw := "[" + name + "]"; Trimmed(raw) && V.Header(raw) == Some(name) && IsHeader(raw)
  {
    var raw := "[" + name + "]";
    assert raw[0] == '[' && raw[|raw| - 1] == ']' && raw[1..|raw| - 1] == name;
    StripTrimmed(raw);
  }

  lemma SmallFileHeaders()
    ensures V.Header(SMALL_FILE[0]) == Some("modules") && V.Header(SMALL_FILE[1]) == Some("pppoe")
    ensures Strip(SMALL_FILE[0]) == "[modules]" && Strip(SMALL_FILE[1]) == "[pppoe]"
    ensures IsHeader(SMALL_FILE[0]) && IsHeader(SMALL_FILE[1])
  {
    hide V.Header, Strip, IsHeader;
    var modules, pppoe := "modules", "pppoe";
    assert modules == ['m', 'o', 'd', 'u', 'l', 'e', 's'] && pppoe == ['p', 'p', 'p', 'o', 'e'];
    BracketedHeader(modules);
    BracketedHeader(pppoe);
    assert "[" + modules + "]" == "[modules]" && "[" + pppoe + "]" == "[pppoe]";
    StripTrimmed("[modules]");
    StripTrimmed("[pppoe]");
  }

  lemma SmallFileValid()
    ensures Valid(SMALL_FILE) && HeaderCount(SMALL_FILE, PPPOE) == 1
  {
    hide V.Header, Strip, IsHeader, Valid, LinePasses;
    SmallFileHeaders();
    assert Declares(SMALL_FILE, "modules");
    ValidMeaning(SMALL_FILE);
    assert SMALL_FILE[1..] == [SMALL_FILE[1]] && [SMALL_FILE[1]][1..] == [];
    var modules, pppoe: string := "[modules]", "[pppoe]";
    assert Lower(pppoe) == PPPOE;
    assert Lower(modules)[1] == LowerChar(modules[1]) && PPPOE[1] == 'p' && modules[1] == 'm';
  }

  /** `service-name=300.1.1.1` spoils a valid file. */
  lemma ServiceNameSpoils()
    ensures Valid(SMALL_FILE)
    ensures !Valid(Edit(PR.RuntimeEditor(Some("300.1.1.1"), None, None), SMALL_FILE))
  {
    hide Valid, Edit, V.Passes, HeaderCount, Strip;
    SmallFileValid();
    BadNameFails();
    StripTrimmed("300.1.1.1");
    RuntimeValidIff(Some("300.1.1.1"), None, None, SMALL_FILE);
  }
}
