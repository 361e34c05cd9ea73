/** The configuration as all its readers see it, and what every editor does to that view. */
module Readings {
  import opened Text
  import opened Patterns
  import opened Sections
  import opened KeyLines
  import opened ConfigManager
  import opened ConfigEdit
  import opened PppoeInterfaces
  import CL = ConnectionLimits
  import PD = PadoDelay
  import PR = PppoeRuntime
  import IP = IpPool
  import RC = Radius

  /** A call of one of the editors. */
  datatype Change =
    | SetInterfaces(bindings: seq<Binding>)
    | SetLimits(maxSessions: Option<nat>, maxStarting: Option<nat>)
    | SetDelay(delay: nat, minSessions: nat)
    | SetRuntime(serviceName: Option<string>, acName: Option<string>, verbose: Option<nat>)
    | AddPool(pool: Pool)
    | RemovePool(name: string)

  function EditorOf(c: Change): Editor {
    match c
    case SetInterfaces(bs) => InterfaceEditor(bs)
    case SetLimits(ms, mst) => CL.LimitsEditor(ms, mst)
    case SetDelay(d, m) => PD.DelayEditor(d, m)
    case SetRuntime(sn, ac, v) => PR.RuntimeEditor(sn, ac, v)
    case AddPool(pool) => IP.AddEditor(pool)
    case RemovePool(name) => IP.RemoveEditor(name)
  }

  predicate OneLineIf(s: Option<string>) {
    s.Some? ==> OneLine(s.value)
  }

  /** Arguments that stay on one line and, for pools, as the request patterns admit them. */
  predicate Proper(c: Change) {
    match c
    case SetInterfaces(bs) => AllOnOneLine(bs)
    case SetRuntime(sn, ac, _) => OneLineIf(sn) && OneLineIf(ac)
    case AddPool(pool) => IP.Proper(pool)
    case _ => true
  }

  // ---------------------------------------------------------------------------
  // All readers at once
  // ---------------------------------------------------------------------------

  datatype Readings = Readings(
    limits: CL.Limits, delay: PD.Delay, runtime: PR.Runtime,
    interfaces: seq<Binding>, pools: seq<Pool>, radius: RC.Config)

  function ReadAll(lines: seq<string>): Readings {
    Readings(CL.ReadLimits(lines), PD.ReadDelay(lines), PR.ReadRuntime(lines),
             ReadBindings(lines), IP.ReadPools(lines), RC.ReadRadius(lines))
  }

  /** The parts of the file that readers look at. */
  datatype Field =
    | MaxSessions | MaxStarting | SessionTimeout | PadoDelay | PadoSessions
    | ServiceName | AcName | Verbose | Interfaces | AllInterfaces | PoolList | RadiusSection

  function KeyString(f: Field): string {
    match f
    case MaxSessions => "max-sessions"
    case MaxStarting => "max-starting"
    case SessionTimeout => "session-timeout"
    case PadoDelay => PD.DELAY
    case PadoSessions => PD.SESSIONS
    case ServiceName => "service-name"
    case AcName => "ac-name"
    case Verbose => "verbose"
    case _ => IFACE
  }

  function PatternOf(f: Field): Pattern {
    match f
    case Interfaces => KeyWithValue(IFACE)
    case PoolList => AnyPool
    case RadiusSection => AnyLine
    case _ => Key(KeyString(f))
  }

  function NamesOf(f: Field): set<string> {
    match f
    case SessionTimeout => CL.GENERAL
    case PoolList => {IP.POOLS}
    case RadiusSection => {RC.RADIUS}
    case _ => {PPPOE}
  }

  function View(lines: seq<string>, f: Field): seq<string> {
    Keep(Body(lines, NamesOf(f), false), PatternOf(f))
  }

  /** The fields a change is about. */
  function Touched(c: Change): set<Field> {
    match c
    case SetInterfaces(_) => {Interfaces, AllInterfaces}
    case SetLimits(ms, mst) => (if ms.Some? then {MaxSessions} else {}) + (if mst.Some? then {MaxStarting} else {})
    case SetDelay(_, _) => {PadoDelay, PadoSessions}
    case SetRuntime(sn, ac, v) =>
      (if sn.Some? then {ServiceName} else {}) + (if ac.Some? then {AcName} else {}) + (if v.Some? then {Verbose} else {})
    case AddPool(_) => {PoolList}
    case RemovePool(_) => {PoolList}
  }

  function UpdatesOf(c: Change): Option<seq<Update>> {
    match c
    case SetLimits(ms, mst) => Some(CL.LimitUpdates(ms, mst))
    case SetDelay(d, m) => Some(PD.DelayUpdates(d, m))
    case SetRuntime(sn, ac, v) => Some(PR.RuntimeUpdates(sn, ac, v))
    case _ => None
  }

  lemma DifferentKeys(f: Field, g: Field)
    requires KeyString(f) == KeyString(g)
    ensures f == g || (KeyString(f) == IFACE && KeyString(g) == IFACE)
  {
    assert "max-sessions"[4] == 's' && "max-starting"[4] == 's' && "max-sessions"[5] == 'e' && "max-starting"[5] == 't';
    assert "service-name"[0] == 's' && "max-sessions"[0] == 'm' && "max-starting"[0] == 'm';
    assert "ac-name"[0] == 'a' && "verbose"[0] == 'v';
    assert |KeyString(f)| == |KeyString(g)|;
  }

  function KeysOf(us: seq<Update>): (keys: seq<string>)
    ensures |keys| == |us|
    ensures forall k :: k in keys <==> Updates(us, k)
  {
    if us == [] then []
    else
      assert us == [us[0]] + us[1..];
      [us[0].key] + KeysOf(us[1..])
  }

  lemma {:induction false} KeysOfAppend(a: seq<Update>, b: seq<Update>)
    ensures KeysOf(a + b) == KeysOf(a) + KeysOf(b)
  {
    if a == [] {
      assert a + b == b;
    } else {
      assert (a + b)[1..] == a[1..] + b;
      KeysOfAppend(a[1..], b);
    }
  }

  lemma OptionalKeys(key: string, value: Option<string>)
    ensures KeysOf(Optional(key, value)) == if value.Some? then [key] else []
  {
    assert Optional(key, value) != [] ==> Optional(key, value)[1..] == [];
  }

  lemma KeysOfChange(c: Change)
    requires UpdatesOf(c).Some?
    ensures forall k :: k in KeysOf(UpdatesOf(c).value) <==>
              match c
              case SetLimits(ms, mst) => (ms.Some? && k == "max-sessions") || (mst.Some? && k == "max-starting")
              case SetDelay(_, _) => k == PD.DELAY || k == PD.SESSIONS
              case SetRuntime(sn, ac, v) =>
                (sn.Some? && k == "service-name") || (ac.Some? && k == "ac-name") || (v.Some? && k == "verbose")
              case _ => false
  {
    hide Optional, KeysOf, Decimal, Updates;
    match c
    case SetLimits(ms, mst) =>
      OptionalKeys("max-sessions", CL.Written(ms));
      OptionalKeys("max-starting", CL.Written(mst));
      KeysOfAppend(Optional("max-sessions", CL.Written(ms)), Optional("max-starting", CL.Written(mst)));
    case SetDelay(d, m) =>
      KeysOfTwo(PD.DelayUpdates(d, m)[0], PD.DelayUpdates(d, m)[1]);
    case SetRuntime(sn, ac, v) =>
      var w := if v.Some? then Some(Decimal(v.value)) else None;
      OptionalKeys("service-name", sn);
      OptionalKeys("ac-name", ac);
      OptionalKeys("verbose", w);
      KeysOfAppend(Optional("service-name", sn), Optional("ac-name", ac));
      KeysOfAppend(Optional("service-name", sn) + Optional("ac-name", ac), Optional("verbose", w));
  }

  lemma KeysOfTwo(u: Update, v: Update)
    ensures KeysOf([u, v]) == [u.key, v.key]
  {
    assert [u, v][1..] == [v] && [v][1..] == [];
  }

  /** A change updates exactly the keys of the fields it touches. */
  lemma FieldOfKey(c: Change, key: string) returns (f: Field)
    requires UpdatesOf(c).Some? && Updates(UpdatesOf(c).value, key)
    ensures f in Touched(c) && KeyString(f) == key && NamesOf(f) == {PPPOE} && PatternOf(f) == Key(key)
    ensures f !in {Interfaces, AllInterfaces, PoolList, RadiusSection}
  {
    hide KeysOf, Updates, UpdatesOf;
    KeysOfChange(c);
    assert key in KeysOf(UpdatesOf(c).value);
    match c
    case SetLimits(ms, mst) => f := if ms.Some? && key == "max-sessions" then MaxSessions else MaxStarting;
    case SetDelay(_, _) => f := if key == PD.DELAY then PadoDelay else PadoSessions;
    case SetRuntime(sn, ac, _) =>
      f := if sn.Some? && key == "service-name" then ServiceName
           else if ac.Some? && key == "ac-name" then AcName
           else Verbose;
  }

  lemma UpdatedKeys(c: Change, f: Field)
    requires UpdatesOf(c).Some? && Updates(UpdatesOf(c).value, KeyString(f))
    ensures f in Touched(c)
  {
    hide UpdatesOf, Touched, Updates;
    var g := FieldOfKey(c, KeyString(f));
    DifferentKeys(f, g);
    assert |KeyString(g)| != 9;
  }

  /** What a change replaces or writes: an interface rebuild may also write lines without a
      value, which it does not recognise itself. */
  function MaskOf(c: Change): Editor {
    if c.SetInterfaces? then INTERFACE_MASK else EditorOf(c)
  }

  /** The lines of a field that a change does not touch are not in its mask. */
  lemma NotOwned(c: Change, f: Field, line: string)
    requires f !in Touched(c) && EditorOf(c).section in NamesOf(f)
    ensures Owned(MaskOf(c), line) ==> !Matches(PatternOf(f), line)
  {
    hide HasEq, KeyOf, Owned, Updates, SlotsOf, CL.LimitUpdates, PD.DelayUpdates, PR.RuntimeUpdates, PoolEntry;
    SectionNames(c, f);
    if c.SetInterfaces? {
      MaskOwns(line);
      if HasKey(line, KeyString(f)) && HasKey(line, IFACE) {
        DifferentKeys(f, Interfaces);
      }
    } else if UpdatesOf(c).Some? {
      KeyOwned(UpdatesOf(c).value, !c.SetRuntime?, line);
      if Updates(UpdatesOf(c).value, KeyString(f)) {
        UpdatedKeys(c, f);
      }
    }
  }

  lemma SectionNames(c: Change, f: Field)
    requires EditorOf(c).section in NamesOf(f)
    ensures c.AddPool? || c.RemovePool? ==> f == PoolList
    ensures !c.AddPool? && !c.RemovePool? ==> f != SessionTimeout && f != PoolList && f != RadiusSection
  {
    assert |PPPOE| == 7 && |IP.POOLS| == 9 && |RC.RADIUS| == 8 && |"[common]"| == 8 && |"[general]"| == 9;
    assert IP.POOLS[1] == 'i' && "[general]"[1] == 'g';
  }

  lemma ChangeOrderly(c: Change)
    requires Proper(c)
    ensures Orderly(EditorOf(c)) && Covers(MaskOf(c), EditorOf(c)) && MaskOf(c).section == EditorOf(c).section
    ensures UpdatesOf(c).Some? ==> KeyLines.Proper(UpdatesOf(c).value)
  {
    hide Tidy, Repeatable, Decimal, Orderly, Covers, AllOnOneLine;
    match c
    case SetInterfaces(bs) => InterfaceEditorOrderly(bs);
    case SetLimits(ms, mst) =>
      LimitUpdatesProper(ms, mst);
      KeyEditorTidy(CL.LimitUpdates(ms, mst), true);
    case SetDelay(d, m) =>
      DelayUpdatesProper(d, m);
      KeyEditorTidy(PD.DelayUpdates(d, m), true);
    case SetRuntime(sn, ac, v) =>
      RuntimeUpdatesProper(sn, ac, v);
      KeyEditorTidy(PR.RuntimeUpdates(sn, ac, v), false);
    case AddPool(pool) => IP.AddEditorTidy(pool);
    case RemovePool(name) => IP.RemoveEditorTidy(name);
  }

  lemma DigitsOneLine(n: nat)
    ensures OneLine(Decimal(n))
  {
    hide Decimal;
  }

  lemma LimitUpdatesProper(ms: Option<nat>, mst: Option<nat>)
    ensures KeyLines.Proper(CL.LimitUpdates(ms, mst))
  {
    hide Decimal, OneLine, KeyName;
    CL.LimitKeys();
    if ms.Some? {
      DigitsOneLine(ms.value);
    }
    if mst.Some? {
      DigitsOneLine(mst.value);
    }
  }

  lemma DelayUpdatesProper(d: nat, m: nat)
    ensures KeyLines.Proper(PD.DelayUpdates(d, m))
  {
    hide Decimal, OneLine, KeyName;
    PD.DelayKeys();
    DigitsOneLine(d);
    DigitsOneLine(m);
  }

  lemma RuntimeUpdatesProper(sn: Option<string>, ac: Option<string>, v: Option<nat>)
    requires OneLineIf(sn) && OneLineIf(ac)
    ensures KeyLines.Proper(PR.RuntimeUpdates(sn, ac, v))
  {
    hide Decimal, OneLine, KeyName;
    PR.RuntimeKeys();
    PR.RuntimeUpdatesShape(sn, ac, v);
    if v.Some? {
      DigitsOneLine(v.value);
    }
  }

  // ---------------------------------------------------------------------------
  // Non-interference
  // ---------------------------------------------------------------------------

  /** No change disturbs a field it is not about. */
  lemma UntouchedField(c: Change, lines: seq<string>, f: Field)
    requires Proper(c) && f !in Touched(c)
    ensures View(Edit(EditorOf(c), lines), f) == View(lines, f)
  {
    hide Body, Keep, Edit, Owned, Matches, EditorOf, MaskOf, Proper, NamesOf, PatternOf, Touched, Orderly, Covers;
    var e := EditorOf(c);
    ChangeOrderly(c);
    forall l {:trigger Matches(PatternOf(f), l)} | Owned(MaskOf(c), l)
      ensures e.section in NamesOf(f) ==> !Matches(PatternOf(f), l)
    {
      if e.section in NamesOf(f) {
        NotOwned(c, f, l);
      }
    }
    ReaderUndisturbed(MaskOf(c), e, lines, NamesOf(f), PatternOf(f));
  }

  lemma {:induction false} PoolsOfKept(body: seq<string>)
    ensures IP.Pools(Keep(body, AnyPool)) == IP.Pools(body)
  {
    hide PoolEntry;
    if body != [] {
      PoolsOfKept(body[1..]);
      var rest := Keep(body[1..], AnyPool);
      assert [] + rest == rest && ([body[0]] + rest)[1..] == rest;
    }
  }

  lemma SameKey(x: seq<string>, y: seq<string>, f: Field, numeric: bool)
    requires View(x, f) == View(y, f) && PatternOf(f) == Key(KeyString(f))
    ensures LastLine(Body(x, NamesOf(f), false), KeyString(f), numeric) == LastLine(Body(y, NamesOf(f), false), KeyString(f), numeric)
  {
    hide Body, Keep, LastLine;
    LastLineOfKept(Body(x, NamesOf(f), false), KeyString(f), numeric);
    LastLineOfKept(Body(y, NamesOf(f), false), KeyString(f), numeric);
  }

  lemma SameNumber(x: seq<string>, y: seq<string>, f: Field, d: nat)
    requires View(x, f) == View(y, f) && PatternOf(f) == Key(KeyString(f))
    ensures NumberIn(Body(x, NamesOf(f), false), KeyString(f), d) == NumberIn(Body(y, NamesOf(f), false), KeyString(f), d)
  {
    hide Body, View, LastLine, ValueOf, LeadingNat, Sets;
    SameKey(x, y, f, true);
  }

  lemma SameText(x: seq<string>, y: seq<string>, f: Field, d: nat)
    requires View(x, f) == View(y, f) && PatternOf(f) == Key(KeyString(f))
    ensures TextIn(Body(x, NamesOf(f), false), KeyString(f), "") == TextIn(Body(y, NamesOf(f), false), KeyString(f), "")
    ensures WholeIn(Body(x, NamesOf(f), false), KeyString(f), d, d) == WholeIn(Body(y, NamesOf(f), false), KeyString(f), d, d)
  {
    hide Body, View, LastLine, ValueOf, DigitsOr, Sets;
    SameKey(x, y, f, false);
  }

  lemma SameLimits(x: seq<string>, y: seq<string>)
    requires View(x, MaxSessions) == View(y, MaxSessions) && View(x, MaxStarting) == View(y, MaxStarting)
    requires View(x, SessionTimeout) == View(y, SessionTimeout)
    ensures CL.ReadLimits(x) == CL.ReadLimits(y)
  {
    hide Body, View, NumberIn;
    SameNumber(x, y, MaxSessions, 0);
    SameNumber(x, y, MaxStarting, 0);
    SameNumber(x, y, SessionTimeout, 0);
  }

  lemma SameDelay(x: seq<string>, y: seq<string>)
    requires View(x, PadoDelay) == View(y, PadoDelay) && View(x, PadoSessions) == View(y, PadoSessions)
    ensures PD.ReadDelay(x) == PD.ReadDelay(y)
  {
    hide Body, View, NumberIn;
    SameNumber(x, y, PadoDelay, 0);
    SameNumber(x, y, PadoSessions, 0);
  }

  lemma SameRuntime(x: seq<string>, y: seq<string>)
    requires View(x, ServiceName) == View(y, ServiceName) && View(x, AcName) == View(y, AcName)
    requires View(x, Verbose) == View(y, Verbose)
    ensures PR.ReadRuntime(x) == PR.ReadRuntime(y)
  {
    hide Body, View, TextIn, WholeIn;
    SameText(x, y, ServiceName, 0);
    SameText(x, y, AcName, 0);
    SameText(x, y, Verbose, 0);
  }

  /** Readers depend on nothing but the fields. */
  lemma SameViews(x: seq<string>, y: seq<string>)
    requires forall f :: View(x, f) == View(y, f)
    ensures ReadAll(x) == ReadAll(y)
  {
    hide View, CL.ReadLimits, PD.ReadDelay, PR.ReadRuntime, ReadBindings, IP.ReadPools, RC.ReadRadius;
    SameLimits(x, y);
    SameDelay(x, y);
    SameRuntime(x, y);
    SameBindings(x, y);
    SamePools(x, y);
    SameRadius(x, y);
  }

  lemma SameBindings(x: seq<string>, y: seq<string>)
    requires View(x, Interfaces) == View(y, Interfaces)
    ensures ReadBindings(x) == ReadBindings(y)
  {
    BindingsOfKept(Body(x, {PPPOE}, false));
    BindingsOfKept(Body(y, {PPPOE}, false));
  }

  lemma SamePools(x: seq<string>, y: seq<string>)
    requires View(x, PoolList) == View(y, PoolList)
    ensures IP.ReadPools(x) == IP.ReadPools(y)
  {
    PoolsOfKept(Body(x, {IP.POOLS}, false));
    PoolsOfKept(Body(y, {IP.POOLS}, false));
  }

  lemma SameRadius(x: seq<string>, y: seq<string>)
    requires View(x, RadiusSection) == View(y, RadiusSection)
    ensures RC.ReadRadius(x) == RC.ReadRadius(y)
  {
    hide Body, Keep, TextIn, WholeIn, RC.Servers;
    KeepAll(Body(x, {RC.RADIUS}, false), AnyLine);
    KeepAll(Body(y, {RC.RADIUS}, false), AnyLine);
  }

  /** The readers a change is not about see what they saw. */
  lemma OtherReaders(c: Change, lines: seq<string>)
    requires Proper(c)
    ensures var before, after := ReadAll(lines), ReadAll(Edit(EditorOf(c), lines));
            && (!c.SetLimits? ==> after.limits == before.limits)
            && (!c.SetDelay? ==> after.delay == before.delay)
            && (!c.SetRuntime? ==> after.runtime == before.runtime)
            && (!c.SetInterfaces? ==> after.interfaces == before.interfaces)
            && (!c.AddPool? && !c.RemovePool? ==> after.pools == before.pools)
            && after.radius == before.radius
            && after.limits.sessionTimeout == before.limits.sessionTimeout
  {
    hide View, CL.ReadLimits, PD.ReadDelay, PR.ReadRuntime, ReadBindings, IP.ReadPools, RC.ReadRadius, EditorOf, Proper, Edit;
    var after := Edit(EditorOf(c), lines);
    forall f | f !in Touched(c)
      ensures View(after, f) == View(lines, f)
    {
      UntouchedField(c, lines, f);
    }
    if !c.SetLimits? {
      SameLimits(after, lines);
    }
    TimeoutSame(after, lines);
    if !c.SetDelay? {
      SameDelay(after, lines);
    }
    if !c.SetRuntime? {
      SameRuntime(after, lines);
    }
    if !c.SetInterfaces? {
      SameBindings(after, lines);
    }
    if !c.AddPool? && !c.RemovePool? {
      SamePools(after, lines);
    }
    SameRadius(after, lines);
  }

  lemma TimeoutSame(x: seq<string>, y: seq<string>)
    requires View(x, SessionTimeout) == View(y, SessionTimeout)
    ensures CL.ReadLimits(x).sessionTimeout == CL.ReadLimits(y).sessionTimeout
  {
    hide Body, View, NumberIn;
    SameNumber(x, y, SessionTimeout, 0);
  }

  // ---------------------------------------------------------------------------
  // Read after write
  // ---------------------------------------------------------------------------

  lemma DecimalReads(n: nat)
    ensures Strip(Decimal(n)) == Decimal(n) && LeadingNat(Decimal(n)) == Some(n) && DigitsOr(Decimal(n), 0) == n
  {
    hide Decimal, Strip;
    var s := Decimal(n);
    assert Trimmed(s) by {
      assert IsDigit(s[0]) && IsDigit(s[|s| - 1]);
    }
    StripTrimmed(s);
    LeadingNatOfDecimal(n);
    ParseDecimal(n);
  }

  lemma NumberSet(us: seq<Update>, reset: bool, lines: seq<string>, u: Update, n: nat, d: nat)
    requires KeyLines.Proper(us) && u in us && HeaderCount(lines, PPPOE) > 0
    requires u.value == Some(Decimal(n))
    ensures var body := Body(Edit(KeyEditor(us, reset), lines), {PPPOE}, false);
            NumberIn(body, u.key, d) == n && WholeIn(body, u.key, 0, d) == n
  {
    hide Body, Decimal, LastLine, ValueOf, LeadingNat, DigitsOr, Strip, Edit, HeaderCount, KeyLines.Proper, Sets;
    UpdateReadBack(us, reset, lines, u, true);
    UpdateReadBack(us, reset, lines, u, false);
    DecimalReads(n);
  }

  lemma KeyDeleted(us: seq<Update>, reset: bool, lines: seq<string>, u: Update, d: nat)
    requires KeyLines.Proper(us) && u in us && HeaderCount(lines, PPPOE) > 0
    requires u.value == None
    ensures NumberIn(Body(Edit(KeyEditor(us, reset), lines), {PPPOE}, false), u.key, d) == d
  {
    hide Body, LastLine, Edit, HeaderCount, KeyLines.Proper;
    UpdateReadBack(us, reset, lines, u, true);
  }

  lemma TextSet(us: seq<Update>, reset: bool, lines: seq<string>, u: Update, t: string, d: string)
    requires KeyLines.Proper(us) && u in us && HeaderCount(lines, PPPOE) > 0
    requires u.value == Some(t)
    ensures TextIn(Body(Edit(KeyEditor(us, reset), lines), {PPPOE}, false), u.key, d) == Strip(t)
  {
    hide Body, LastLine, ValueOf, Strip, Edit, HeaderCount, KeyLines.Proper;
    UpdateReadBack(us, reset, lines, u, false);
  }

  lemma MaxSessionsEffect(ms: Option<nat>, mst: Option<nat>, lines: seq<string>)
    requires HeaderCount(lines, PPPOE) > 0
    ensures CL.ReadLimits(Edit(CL.LimitsEditor(ms, mst), lines)).maxSessions ==
            if ms.Some? then ms.value else CL.ReadLimits(lines).maxSessions
  {
    hide Body, View, NumberIn, Edited, Decimal, KeyLines.Proper, HeaderCount;
    var us, c := CL.LimitUpdates(ms, mst), SetLimits(ms, mst);
    ChangeOrderly(c);
    if ms.Some? {
      var u := Update("max-sessions", Some(Decimal(ms.value)));
      assert us[0] == u;
      NumberSet(us, true, lines, u, ms.value, 0);
    } else {
      UntouchedField(c, lines, MaxSessions);
      SameNumber(Edit(CL.LimitsEditor(ms, mst), lines), lines, MaxSessions, 0);
    }
  }

  lemma MaxStartingEffect(ms: Option<nat>, mst: Option<nat>, lines: seq<string>)
    requires HeaderCount(lines, PPPOE) > 0
    ensures CL.ReadLimits(Edit(CL.LimitsEditor(ms, mst), lines)).maxStarting ==
            if mst.Some? then mst.value else CL.ReadLimits(lines).maxStarting
  {
    hide Body, View, NumberIn, Edited, Decimal, KeyLines.Proper, HeaderCount;
    var us, c := CL.LimitUpdates(ms, mst), SetLimits(ms, mst);
    ChangeOrderly(c);
    if mst.Some? {
      var u := Update("max-starting", Some(Decimal(mst.value)));
      assert us[|us| - 1] == u;
      NumberSet(us, true, lines, u, mst.value, 0);
    } else {
      UntouchedField(c, lines, MaxStarting);
      SameNumber(Edit(CL.LimitsEditor(ms, mst), lines), lines, MaxStarting, 0);
    }
  }

  lemma LimitsEffect(ms: Option<nat>, mst: Option<nat>, lines: seq<string>)
    requires HeaderCount(lines, PPPOE) > 0
    ensures var before, after := CL.ReadLimits(lines), CL.ReadLimits(Edit(CL.LimitsEditor(ms, mst), lines));
            && after.maxSessions == (if ms.Some? then ms.value else before.maxSessions)
            && after.maxStarting == (if mst.Some? then mst.value else before.maxStarting)
  {
    hide Edit, CL.ReadLimits, CL.LimitsEditor, HeaderCount;
    MaxSessionsEffect(ms, mst, lines);
    MaxStartingEffect(ms, mst, lines);
  }

  lemma DelayEffect(d: nat, m: nat, lines: seq<string>)
    requires HeaderCount(lines, PPPOE) > 0
    ensures PD.ReadDelay(Edit(PD.DelayEditor(d, m), lines)) == PD.Delay(d, m)
  {
    hide Body, NumberIn, Edited, Decimal, KeyLines.Proper, HeaderCount;
    var us := PD.DelayUpdates(d, m);
    ChangeOrderly(SetDelay(d, m));
    assert us[0] in us && us[1] in us;
    NumberSet(us, true, lines, us[0], d, 0);
    if m > 0 {
      NumberSet(us, true, lines, us[1], m, 0);
    } else {
      KeyDeleted(us, true, lines, us[1], 0);
    }
  }

  /** The updates of a runtime change: one for each value given. */
  lemma RuntimeParts(c: Change)
    requires c.SetRuntime? && Proper(c)
    ensures var us := PR.RuntimeUpdates(c.serviceName, c.acName, c.verbose);
            && EditorOf(c) == KeyEditor(us, false) && KeyLines.Proper(us)
            && (if c.serviceName.Some? then Update("service-name", c.serviceName) in us else ServiceName !in Touched(c))
            && (if c.acName.Some? then Update("ac-name", c.acName) in us else AcName !in Touched(c))
            && (if c.verbose.Some? then Update("verbose", Some(Decimal(c.verbose.value))) in us else Verbose !in Touched(c))
  {
    hide Decimal, KeyLines.Proper, PR.RuntimeUpdates, Orderly, Covers, MaskOf, OneLine;
    ChangeOrderly(c);
    PR.RuntimeUpdatesShape(c.serviceName, c.acName, c.verbose);
  }

  lemma RuntimeText(c: Change, lines: seq<string>, f: Field, value: Option<string>)
    requires c.SetRuntime? && Proper(c) && HeaderCount(lines, PPPOE) > 0 && f in {ServiceName, AcName}
    requires value == if f == ServiceName then c.serviceName else c.acName
    ensures TextIn(Body(Edit(EditorOf(c), lines), {PPPOE}, false), KeyString(f), "") ==
            if value.Some? then Strip(value.value) else TextIn(Body(lines, {PPPOE}, false), KeyString(f), "")
  {
    hide Body, View, TextIn, WholeIn, Edit, Decimal, KeyLines.Proper, HeaderCount, PR.RuntimeUpdates, Strip, EditorOf, Touched, Proper;
    RuntimeParts(c);
    if value.Some? {
      TextSet(PR.RuntimeUpdates(c.serviceName, c.acName, c.verbose), false, lines, Update(KeyString(f), value), value.value, "");
    } else {
      UntouchedField(c, lines, f);
      SameText(Edit(EditorOf(c), lines), lines, f, 0);
    }
  }

  lemma RuntimeVerbose(c: Change, lines: seq<string>)
    requires c.SetRuntime? && Proper(c) && HeaderCount(lines, PPPOE) > 0
    ensures WholeIn(Body(Edit(EditorOf(c), lines), {PPPOE}, false), "verbose", 0, 0) ==
            if c.verbose.Some? then c.verbose.value else WholeIn(Body(lines, {PPPOE}, false), "verbose", 0, 0)
  {
    hide Body, View, TextIn, WholeIn, NumberIn, Edit, Decimal, KeyLines.Proper, HeaderCount, PR.RuntimeUpdates, EditorOf, Touched, Proper;
    RuntimeParts(c);
    if c.verbose.Some? {
      var u := Update("verbose", Some(Decimal(c.verbose.value)));
      NumberSet(PR.RuntimeUpdates(c.serviceName, c.acName, c.verbose), false, lines, u, c.verbose.value, 0);
    } else {
      UntouchedField(c, lines, Verbose);
      SameText(Edit(EditorOf(c), lines), lines, Verbose, 0);
    }
  }

  lemma RuntimeEffect(sn: Option<string>, ac: Option<string>, v: Option<nat>, lines: seq<string>)
    requires OneLineIf(sn) && OneLineIf(ac) && HeaderCount(lines, PPPOE) > 0
    ensures var before, after := PR.ReadRuntime(lines), PR.ReadRuntime(Edit(PR.RuntimeEditor(sn, ac, v), lines));
            && after.serviceName == (if sn.Some? then Strip(sn.value) else before.serviceName)
            && after.acName == (if ac.Some? then Strip(ac.value) else before.acName)
            && after.verbose == (if v.Some? then v.value else before.verbose)
  {
    hide Body, TextIn, WholeIn, Edited, HeaderCount, OneLine, PR.RuntimeUpdates, Strip;
    var c := SetRuntime(sn, ac, v);
    RuntimeText(c, lines, ServiceName, sn);
    RuntimeText(c, lines, AcName, ac);
    RuntimeVerbose(c, lines);
  }

  /** What the readers should see after a change. */
  function Expected(c: Change, lines: seq<string>): Readings {
    var r := ReadAll(lines);
    if HeaderCount(lines, EditorOf(c).section) == 0 then r
    else
      match c
      case SetInterfaces(bs) => r.(interfaces := Times(AsRead(bs), HeaderCount(lines, PPPOE)))
      case SetLimits(ms, mst) =>
        r.(limits := CL.Limits(if ms.Some? then ms.value else r.limits.maxSessions,
                               if mst.Some? then mst.value else r.limits.maxStarting,
                               r.limits.sessionTimeout))
      case SetDelay(d, m) => r.(delay := PD.Delay(d, m))
      case SetRuntime(sn, ac, v) =>
        r.(runtime := PR.Runtime(if sn.Some? then Strip(sn.value) else r.runtime.serviceName,
                                 if ac.Some? then Strip(ac.value) else r.runtime.acName,
                                 if v.Some? then v.value else r.runtime.verbose))
      case AddPool(pool) => r.(pools := IP.Insert(r.pools, IP.FirstSection(lines, false), pool))
      case RemovePool(name) => r.(pools := IP.Others(r.pools, name))
  }

  /** Every change does exactly this to what the readers see: the values just set are read
      back, omitted ones and all other readers see what they saw, and without the section
      nothing changes. */
  lemma EditSeen(c: Change, lines: seq<string>)
    requires Proper(c)
    requires c.AddPool? ==> !IP.Named(IP.ReadPools(lines), c.pool.name)
    ensures ReadAll(Edit(EditorOf(c), lines)) == Expected(c, lines)
  {
    hide CL.ReadLimits, PD.ReadDelay, PR.ReadRuntime, ReadBindings, IP.ReadPools, RC.ReadRadius, Edited, HeaderCount;
    hide CL.LimitsEditor, PD.DelayEditor, PR.RuntimeEditor, InterfaceEditor, IP.AddEditor, IP.RemoveEditor;
    hide IP.Proper, AllOnOneLine, AsRead, IP.Named;
    if HeaderCount(lines, EditorOf(c).section) == 0 {
      NoSectionNoEdit(EditorOf(c), lines, {});
    } else {
      EditedSections(c);
      OtherReaders(c, lines);
      match c
      case SetInterfaces(bs) => RebuiltBindings(bs, lines);
      case SetLimits(ms, mst) => LimitsEffect(ms, mst, lines);
      case SetDelay(d, m) => DelayEffect(d, m, lines);
      case SetRuntime(sn, ac, v) => RuntimeEffect(sn, ac, v, lines);
      case AddPool(pool) => IP.ListedAfterAdd(pool, lines);
      case RemovePool(name) => IP.ListedAfterRemove(name, lines);
    }
  }

  lemma EditedSections(c: Change)
    ensures EditorOf(c).section == if c.AddPool? || c.RemovePool? then IP.POOLS else PPPOE
  {
  }

  function LinesOf(s: State): seq<string> {
    if s.file.Some? then SplitLines(s.file.value) else []
  }

  /** The same for the file: whether the editor's result is written or refused, the readers
      of the file see what they should. */
  lemma FileSeen(c: Change, s: State, now: string)
    requires Proper(c) && s.file.Some?
    requires c.AddPool? ==> !IP.Named(IP.ReadPools(LinesOf(s)), c.pool.name)
    ensures ReadAll(LinesOf(EditFile(EditorOf(c), s, now))) == Expected(c, LinesOf(s))
  {
    hide ReadAll, Edit, HeaderCount, EditorOf, MaskOf, SplitLines, Orderly, Covers, Proper, IP.Named, IP.ReadPools;
    ChangeOrderly(c);
    EditFileLines(EditorOf(c), s, now);
    EditSeen(c, LinesOf(s));
  }

  // ---------------------------------------------------------------------------
  // Changes to different fields commute
  // ---------------------------------------------------------------------------

  predicate Independent(a: Change, b: Change) {
    Touched(a) !! Touched(b)
  }

  /** Independent changes replace and write different lines. */
  lemma IndependentApart(a: Change, b: Change)
    requires Independent(a, b)
    ensures Apart(MaskOf(a), MaskOf(b))
  {
    hide Owned, EditorOf, Touched, Matches;
    forall l {:trigger Owned(MaskOf(a), l)} | MaskOf(a).section == MaskOf(b).section && Owned(MaskOf(a), l)
      ensures !Owned(MaskOf(b), l)
    {
      MaskSections(a);
      MaskSections(b);
      var f := OwnedField(a, l);
      NotOwned(b, f, l);
    }
  }

  lemma MaskSections(c: Change)
    ensures MaskOf(c).section == EditorOf(c).section
  {
  }

  /** Every line in a change's mask belongs to a field it touches. */
  lemma OwnedField(c: Change, l: string) returns (f: Field)
    requires Owned(MaskOf(c), l)
    ensures f in Touched(c) && Matches(PatternOf(f), l) && EditorOf(c).section in NamesOf(f)
  {
    hide HasEq, KeyOf, Owned, SlotsOf, CL.LimitUpdates, PD.DelayUpdates, PR.RuntimeUpdates, PoolEntry, ValueOf, Decimal;
    if c.SetInterfaces? {
      MaskOwns(l);
      f := AllInterfaces;
    } else if UpdatesOf(c).Some? {
      KeyOwned(UpdatesOf(c).value, !c.SetRuntime?, l);
      f := FieldOfKey(c, KeyOf(l));
    } else {
      var e := EditorOf(c);
      IP.PoolOwned(e, if c.AddPool? then c.pool.name else c.name, e.slots[0].lines, l);
      f := PoolList;
    }
  }

  lemma SameByVisible(c: Change, x: seq<string>, y: seq<string>, f: Field)
    requires f !in Touched(c)
    requires Visible(MaskOf(c), x, false) == Visible(MaskOf(c), y, false)
    ensures View(x, f) == View(y, f)
  {
    hide Body, Keep, Owned, Matches, EditorOf, MaskOf, NamesOf, PatternOf, Touched, Visible;
    var m := MaskOf(c);
    MaskSections(c);
    forall l {:trigger Matches(PatternOf(f), l)} | Owned(m, l)
      ensures m.section in NamesOf(f) ==> !Matches(PatternOf(f), l)
    {
      if m.section in NamesOf(f) {
        NotOwned(c, f, l);
      }
    }
    KeepVisible(m, x, false, NamesOf(f), false, PatternOf(f));
    KeepVisible(m, y, false, NamesOf(f), false, PatternOf(f));
  }

  // ---------------------------------------------------------------------------
  // The PADI limit of an interface
  // ---------------------------------------------------------------------------

  /** Only the interface editor can change what `get_interface_limit` finds. */
  lemma {:induction false} LimitOfKept(body: seq<string>, name: string)
    ensures CL.FindLimit(Keep(body, Key(IFACE)), name) == CL.FindLimit(body, name)
  {
    hide HasKey, CL.PlainIface, CL.IfaceParts, CL.PadiLimit, Strip;
    if body != [] {
      LimitOfKept(body[1..], name);
      if CL.PlainIface(body[0]) {
        PlainHasKey(body[0]);
      }
      var rest := Keep(body[1..], Key(IFACE));
      assert [] + rest == rest && ([body[0]] + rest)[1..] == rest;
    }
  }

  lemma PlainHasKey(line: string)
    requires CL.PlainIface(line)
    ensures HasKey(line, IFACE)
  {
    var prefix := "interface=";
    IfaceKey();
    LowerKeyName(IFACE);
    assert line[..10] == prefix;
    assert prefix[..9] == IFACE && prefix[9] == '=';
    assert line[..9] == prefix[..9] && line[9] == prefix[9];
    assert Lower(line[..9]) == IFACE;
    KeyFront(line, 9, 9);
  }

  lemma InterfaceLimitUndisturbed(c: Change, lines: seq<string>, name: string)
    requires Proper(c) && !c.SetInterfaces?
    ensures CL.FindLimit(Body(Edit(EditorOf(c), lines), {PPPOE}, false), name)
            == CL.FindLimit(Body(lines, {PPPOE}, false), name)
  {
    hide Body, Edit, EditorOf, Proper, CL.FindLimit;
    UntouchedField(c, lines, AllInterfaces);
    LimitOfKept(Body(lines, {PPPOE}, false), name);
    LimitOfKept(Body(Edit(EditorOf(c), lines), {PPPOE}, false), name);
  }

  lemma ViewsCommute(a: Change, b: Change, lines: seq<string>, f: Field)
    requires Proper(a) && Proper(b) && Independent(a, b)
    ensures View(Edit(EditorOf(a), Edit(EditorOf(b), lines)), f) == View(Edit(EditorOf(b), Edit(EditorOf(a), lines)), f)
  {
    hide View, EditorOf, MaskOf, Proper, Edit, Visible, Orderly, Covers, Apart;
    ChangeOrderly(a);
    ChangeOrderly(b);
    IndependentApart(a, b);
    EditorsCommute(MaskOf(a), EditorOf(a), MaskOf(b), EditorOf(b), lines);
    var x, y := Edit(EditorOf(a), Edit(EditorOf(b), lines)), Edit(EditorOf(b), Edit(EditorOf(a), lines));
    if f !in Touched(a) {
      SameByVisible(a, x, y, f);
    } else {
      SameByVisible(b, x, y, f);
    }
  }

  /** Two changes about different fields can be made in either order: every reader sees the
      same in the end, and `get_interface_limit` finds the same for every name. */
  lemma ChangesCommute(a: Change, b: Change, lines: seq<string>)
    requires Proper(a) && Proper(b) && Independent(a, b)
    ensures var x, y := Edit(EditorOf(a), Edit(EditorOf(b), lines)), Edit(EditorOf(b), Edit(EditorOf(a), lines));
            && ReadAll(x) == ReadAll(y)
            && forall name :: CL.FindLimit(Body(x, {PPPOE}, false), name) == CL.FindLimit(Body(y, {PPPOE}, false), name)
  {
    hide ReadAll, View, EditorOf, Proper, Edit, Body, CL.FindLimit;
    var x, y := Edit(EditorOf(a), Edit(EditorOf(b), lines)), Edit(EditorOf(b), Edit(EditorOf(a), lines));
    forall f
      ensures View(x, f) == View(y, f)
    {
      ViewsCommute(a, b, lines, f);
    }
    SameViews(x, y);
    forall name
      ensures CL.FindLimit(Body(x, {PPPOE}, false), name) == CL.FindLimit(Body(y, {PPPOE}, false), name)
    {
      SameLimitLookup(x, y, name);
    }
  }

  lemma SameLimitLookup(x: seq<string>, y: seq<string>, name: string)
    requires View(x, AllInterfaces) == View(y, AllInterfaces)
    ensures CL.FindLimit(Body(x, {PPPOE}, false), name) == CL.FindLimit(Body(y, {PPPOE}, false), name)
  {
    hide Body, Keep, CL.FindLimit;
    LimitOfKept(Body(x, {PPPOE}, false), name);
    LimitOfKept(Body(y, {PPPOE}, false), name);
  }

  predicate Found(body: seq<string>, name: string) {
    CL.FindLimit(body, name) != CL.Limit(CL.InterfaceLimit(0, false))
  }

  lemma PlainName(line: string)
    ensures Strip(CL.IfaceParts(line)[0]) == BindingOf(ValueOf(line)).name
    ensures ValueOf(line) == "" ==> BindingOf(ValueOf(line)).name == ""
  {
    hide Strip, ValueOf;
    var v := ValueOf(line);
    var n := Find(v, ',');
    assert n == |v| ==> v[..n] == v;
    StripTrimmed("");
  }

  /** Some plainly written line is about the interface. */
  predicate PlainlyWritten(body: seq<string>, name: string) {
    exists l :: l in body && CL.PlainIface(l) && BindingOf(ValueOf(l)).name == name
  }

  /** `get_interface_limit` finds (or fails on) exactly the names with a plainly written line. */
  lemma {:induction false} FoundIff(body: seq<string>, name: string)
    ensures Found(body, name) <==> PlainlyWritten(body, name)
  {
    hide Strip, ValueOf, CL.PlainIface, CL.IfaceParts, CL.PadiLimit, BindingOf;
    if body != [] {
      FoundIff(body[1..], name);
      PlainName(body[0]);
      assert forall l :: l in body <==> l == body[0] || l in body[1..];
    }
  }

  /** The parser lists exactly the names with a line that has a value. */
  lemma {:induction false} ListedIff(body: seq<string>, name: string)
    ensures name in Names(Bindings(body)) <==>
            exists l :: l in body && Matches(KeyWithValue(IFACE), l) && BindingOf(ValueOf(l)).name == name
  {
    hide Matches, ValueOf, BindingOf;
    if body != [] {
      var l, rest := body[0], Bindings(body[1..]);
      ListedIff(body[1..], name);
      assert ([BindingOf(ValueOf(l))] + rest)[1..] == rest && [] + rest == rest;
      assert forall l :: l in body <==> l == body[0] || l in body[1..];
    }
  }

  /** A name with text that is found is listed. */
  lemma FoundIfListed(body: seq<string>, name: string)
    requires name != ""
    ensures Found(body, name) ==> name in Names(Bindings(body))
  {
    hide Found, Names, Bindings, BindingOf, ValueOf, HasKey, CL.PlainIface;
    FoundIff(body, name);
    ListedIff(body, name);
    if Found(body, name) {
      var l :| l in body && CL.PlainIface(l) && BindingOf(ValueOf(l)).name == name;
      PlainHasKey(l);
      PlainName(l);
    }
  }

  /** The two readers agree on all names with text exactly if every such name that is listed
      has a plainly written line: another line of it may be written in any way. */
  lemma ReadersAgreeIff(body: seq<string>)
    ensures (forall name :: name != "" ==> (Found(body, name) <==> name in Names(Bindings(body)))) <==>
            (forall l :: l in body && Matches(KeyWithValue(IFACE), l) && BindingOf(ValueOf(l)).name != "" ==>
               PlainlyWritten(body, BindingOf(ValueOf(l)).name))
  {
    hide Found, Names, Bindings, BindingOf, ValueOf, Matches, PlainlyWritten;
    forall name | name != ""
      ensures Found(body, name) ==> name in Names(Bindings(body))
    {
      FoundIfListed(body, name);
    }
    forall name
      ensures Found(body, name) <==> PlainlyWritten(body, name)
      ensures name in Names(Bindings(body)) <==>
              exists l :: l in body && Matches(KeyWithValue(IFACE), l) && BindingOf(ValueOf(l)).name == name
    {
      FoundIff(body, name);
      ListedIff(body, name);
    }
    if forall name :: name != "" ==> (Found(body, name) <==> name in Names(Bindings(body))) {
      forall l | l in body && Matches(KeyWithValue(IFACE), l) && BindingOf(ValueOf(l)).name != ""
        ensures PlainlyWritten(body, BindingOf(ValueOf(l)).name)
      {
        assert BindingOf(ValueOf(l)).name in Names(Bindings(body));
      }
    }
  }

  lemma RenderedPlain(b: Binding)
    ensures CL.PlainIface(Strip(IFACE + "=" + Rendered(b)))
  {
    hide Strip, RStrip, HasKey, ValueOf;
    IfaceKey();
    WrittenKeyLine(IFACE, Rendered(b));
    assert (IFACE + "=" + RStrip(Rendered(b)))[..10] == "interface=";
  }

  /** After a rebuild `get_interface_limit` finds exactly the non-empty names the parser
      lists. */
  lemma FoundIffListed(bs: seq<Binding>, lines: seq<string>, name: string)
    requires AllOnOneLine(bs) && name != ""
    ensures var after := Edit(InterfaceEditor(bs), lines);
            Found(Body(after, {PPPOE}, false), name) <==> name in Names(ReadBindings(after))
  {
    hide Body, Strip, Matches, Edited, Found, Bindings, CL.PlainIface, Orderly, Covers, AllOnOneLine, Rendered, ValueOf, BindingOf, Names;
    var e := InterfaceEditor(bs);
    var body := Body(Edit(e, lines), {PPPOE}, false);
    InterfaceEditorOrderly(bs);
    forall l | l in body && Matches(KeyWithValue(IFACE), l)
      ensures CL.PlainIface(l)
    {
      InterfaceOwns(bs, l);
      OnlyWritten(e, lines, false, {}, l);
      assert SlotFor(e.slots, l).value == InterfaceSlot(bs);
      var xs := RenderEach(bs);
      var i :| 0 <= i < |xs| && StripEach(xs)[i] == l;
      RenderedPlain(bs[i]);
    }
    FoundIfListed(body, name);
    FoundIff(body, name);
    ListedIff(body, name);
  }

  lemma CapitalIface()
    ensures HasKey("Interface=eth0", IFACE) && ValueOf("Interface=eth0") == "eth0"
  {
    hide Strip;
    var line := "Interface=eth0";
    IfaceKey();
    assert line[..9] == "Interface" && Lower("Interface") == IFACE;
    KeyFront(line, 9, 9);
    assert line[10..] == "eth0";
    StripTrimmed("eth0");
  }

  lemma PlainEth0()
    ensures BindingOf("eth0") == Binding("eth0", "")
  {
    hide Strip;
    NoCommaBinding("eth0");
    StripTrimmed("eth0");
  }

  /** A binding written with another spacing or case is listed but not found. */
  lemma ListedButNotFound()
    ensures Names(Bindings(["Interface=eth0"])) == ["eth0"] && !Found(["Interface=eth0"], "eth0")
  {
    hide Strip, ValueOf, HasKey, BindingOf, CL.IfaceParts, CL.PadiLimit;
    var line: string := "Interface=eth0";
    CapitalIface();
    PlainEth0();
    var one: seq<string> := [line];
    assert one[1..] == [] && line[0] != "interface="[0];
    NoBindings();
    assert [Binding("eth0", "")][1..] == [];
  }

  lemma SmallIface()
    ensures HasKey("interface=eth0", IFACE) && ValueOf("interface=eth0") == "eth0"
    ensures CL.PlainIface("interface=eth0")
  {
    hide Strip, RStrip, HasKey, ValueOf;
    IfaceKey();
    WrittenKeyLine(IFACE, "eth0");
    StripTrimmed("eth0");
    StripTrimmed("interface=eth0");
    assert IFACE + "=" + "eth0" == "interface=eth0";
  }

  /** ... and found as soon as another line of the same name is plain. */
  lemma ListedAndFound()
    ensures Names(Bindings(["Interface=eth0", "interface=eth0"])) == ["eth0", "eth0"]
    ensures Found(["Interface=eth0", "interface=eth0"], "eth0")
  {
    hide Strip, ValueOf, HasKey, BindingOf, CL.PlainIface, Found;
    CapitalIface();
    SmallIface();
    PlainEth0();
    var two: seq<string> := ["Interface=eth0", "interface=eth0"];
    assert two[1..] == ["interface=eth0"] && two[1..][1..] == [] && two[1] in two;
    NoBindings();
    assert [Binding("eth0", "")][1..] == [] && [Binding("eth0", ""), Binding("eth0", "")][1..] == [Binding("eth0", "")];
    FoundIff(two, "eth0");
  }
}
