/** What the two parsers of `show stat` report, told from the lines: every figure is that of
    the latest line that gives it. */
module StatMeaning {
  import opened Text
  import opened StatScan

  // ---------------------------------------------------------------------------
  // Lines
  // ---------------------------------------------------------------------------

  function Repeated(c: char, n: nat): string {
    seq(n, i => c)
  }

  /** The line starts with a visible character. */
  predicate AtMargin(raw: string) {
    raw != "" && !IsSpace(raw[0])
  }

  /** The line starts with a blank and has text. */
  predicate Indented(raw: string) {
    raw != "" && IsSpace(raw[0]) && Strip(raw) != ""
  }

  /** The line at the margin is the name of a section and a colon, or several. */
  ghost predicate Opens(raw: string, section: string) {
    AtMargin(raw) && exists n: nat :: n >= 1 && Strip(raw) == section + Repeated(':', n)
  }

  /** The latest line at the margin before position `i` opens the section. */
  ghost predicate BlockAt(lines: seq<string>, i: int, section: string)
    requires 0 <= i <= |lines|
  {
    exists h :: 0 <= h < i && Opens(lines[h], section) && forall k :: h < k < i ==> !AtMargin(lines[k])
  }

  ghost predicate InBlock(lines: seq<string>, i: int, section: string) {
    0 <= i < |lines| && Indented(lines[i]) && BlockAt(lines, i, section)
  }

  /** The line is `key: value`, cut at the first colon. */
  ghost predicate Entry(raw: string, key: string, value: string) {
    exists a, b :: Strip(raw) == a + [':'] + b && ':' !in a && Strip(a) == key && Strip(b) == value
  }

  /** The text is what remains of `s` without the `c` at its end. */
  ghost predicate Without(s: string, c: char, t: string) {
    (exists n: nat :: s == t + Repeated(c, n)) && (t != "" ==> t[|t| - 1] != c)
  }

  ghost predicate IsNumber(text: string, v: Value) {
    ParseInt(text).Some? && v == Number(ParseInt(text).value)
  }

  lemma LineKinds(raw: string)
    ensures AtMargin(raw) <==> !Blank(raw) && TopLevel(raw)
    ensures Indented(raw) <==> !Blank(raw) && !TopLevel(raw)
  {
    if AtMargin(raw) {
      assert FirstVisible(raw, 0) == 0;
      assert AfterVisible(raw, 0, |raw|) > 0;
    }
  }

  lemma BlockStep(lines: seq<string>, i: int, section: string)
    requires 0 <= i < |lines|
    ensures BlockAt(lines, i + 1, section) <==> if AtMargin(lines[i]) then Opens(lines[i], section) else BlockAt(lines, i, section)
  {
    hide AtMargin, Opens;
    OpensAtMargin(lines[i], section);
    if !AtMargin(lines[i]) && BlockAt(lines, i, section) {
      var h :| 0 <= h < i && Opens(lines[h], section) && forall k :: h < k < i ==> !AtMargin(lines[k]);
      assert 0 <= h < i + 1;
    }
  }

  lemma OpensAtMargin(raw: string, section: string)
    ensures Opens(raw, section) ==> AtMargin(raw)
  {
  }

  lemma {:induction false} TrimEndKeeps(s: string, c: char)
    ensures Without(s, c, TrimEnd(s, c))
  {
    if s != "" && s[|s| - 1] == c {
      var r := s[..|s| - 1];
      TrimEndKeeps(r, c);
      var n: nat :| r == TrimEnd(r, c) + Repeated(c, n);
      assert s == TrimEnd(r, c) + Repeated(c, n + 1);
    } else {
      assert s == s + Repeated(c, 0);
    }
  }

  lemma {:induction false} TrimEndOnly(s: string, c: char, t: string)
    requires Without(s, c, t)
    ensures t == TrimEnd(s, c)
  {
    var n: nat :| s == t + Repeated(c, n);
    if n > 0 {
      assert s[|s| - 1] == Repeated(c, n)[n - 1];
      assert s[..|s| - 1] == t + Repeated(c, n - 1);
      TrimEndOnly(s[..|s| - 1], c, t);
    }
  }

  lemma TrimEndMeaning(s: string, c: char)
    ensures forall t :: Without(s, c, t) <==> t == TrimEnd(s, c)
  {
    hide Without, TrimEnd;
    TrimEndKeeps(s, c);
    forall t | Without(s, c, t)
      ensures t == TrimEnd(s, c)
    {
      TrimEndOnly(s, c, t);
    }
  }

  lemma ColonAt(s: string, a: string, b: string)
    requires s == a + [':'] + b && ':' !in a
    ensures Find(s, ':') == |a| && s[..|a|] == a && s[|a| + 1..] == b && ':' in s
  {
    assert s[|a|] == ':';
    assert forall i :: 0 <= i < |a| ==> s[i] == a[i];
  }

  lemma EntryIff(raw: string, key: string, value: string)
    ensures var s := Strip(raw);
            Entry(raw, key, value) <==> ':' in s && KeyPart(s) == key && AfterColon(s) == value
  {
    hide Strip;
    var s := Strip(raw);
    if ':' in s {
      var n := Find(s, ':');
      assert n < |s|;
      assert s == s[..n] + [':'] + s[n + 1..];
    }
    if Entry(raw, key, value) {
      var a, b :| s == a + [':'] + b && ':' !in a && Strip(a) == key && Strip(b) == value;
      ColonAt(s, a, b);
    }
  }

  /** The two ways to tell that a section begins. */
  lemma SectionIff(raw: string, section: string)
    requires AtMargin(raw) && section != "" && ' ' !in section && section[|section| - 1] != ':'
    ensures SectionOf(Strip(raw)) == Some(section) <==> Opens(raw, section)
  {
    hide Strip, TrimEnd;
    var s := Strip(raw);
    TrimEndMeaning(s, ':');
    if SectionOf(s) == Some(section) {
      assert Without(s, ':', section);
      var n: nat :| s == section + Repeated(':', n);
      assert n == 0 ==> s == section;
    }
    if Opens(raw, section) {
      var n: nat :| n >= 1 && s == section + Repeated(':', n);
      assert s[|s| - 1] == Repeated(':', n)[n - 1];
      assert Without(s, ':', section);
    }
  }

  // ---------------------------------------------------------------------------
  // Figures
  // ---------------------------------------------------------------------------

  /** A figure of the report: a text at the margin, one of the two memory figures, a counter
      under its own name, or one of the `pppoe` section under the name of the report. */
  datatype Figure = Uptime | Cpu | Rss | Virt | Counter(section: string, key: string) | Pppoe(name: string)

  ghost predicate UptimeLine(raw: string, t: string) {
    AtMargin(raw) && exists b :: Strip(raw) == "uptime:" + b && t == Strip(b)
  }

  ghost predicate CpuLine(raw: string, t: string) {
    AtMargin(raw) && exists b :: Strip(raw) == "cpu:" + b && Without(Strip(b), '%', t)
  }

  /** `w` is the text up to the first blank. */
  ghost predicate StartsWithWord(t: string, w: string) {
    exists after :: t == w + after && (forall c :: c in w ==> !IsSpace(c)) && (after != "" ==> IsSpace(after[0]))
  }

  /** `mem(rss/virt): x/y`, and possibly more after a blank. */
  ghost predicate MemoryLine(raw: string, x: string, y: string) {
    && AtMargin(raw) && '/' !in x && '/' !in y
    && exists b :: Strip(raw) == "mem(rss/virt):" + b && StartsWithWord(Strip(b), x + ['/'] + y)
  }

  /** The counters of the `pppoe` section that are reported under another name than their own
      label, and those that keep theirs. */
  predicate PppoeLabel(key: string, name: string) {
    || (key == "starting" && name == "starting")
    || (key == "active" && name == "active")
    || (key == "delayed PADO" && name == "delayed_pado")
    || (key == "recv PADI" && name == "recv_padi")
    || (key == "drop PADI" && name == "drop_padi")
    || (key == "sent PADO" && name == "sent_pado")
    || (key == "sent PADS" && name == "sent_pads")
    || (key == "filtered" && name == "filtered")
  }

  /** What an entry of the `pppoe` section gives: a labelled counter, or with `recv PADR...`
      the number before the first parenthesis and the one after it. */
  ghost predicate PppoeGives(key: string, text: string, name: string, v: Value) {
    || (PppoeLabel(key, name) && IsNumber(text, v))
    || ("recv PADR" <= key && name == "recv_padr" && '(' !in text && IsNumber(text, v))
    || ("recv PADR" <= key && name == "recv_padr"
        && exists a, b :: text == a + ['('] + b && '(' !in a && IsNumber(a, v))
    || ("recv PADR" <= key && name == "recv_padr_dup"
        && exists a, b, dup, t :: text == a + ['('] + b && '(' !in a && UpTo(b, '(', dup) && Without(dup, ')', t) && IsNumber(t, v))
  }

  /** `t` is the text before the first `c`, or all of it. */
  ghost predicate UpTo(s: string, c: char, t: string) {
    c !in t && exists after :: s == t + after && (after != "" ==> after[0] == c)
  }

  ghost predicate Gives(lines: seq<string>, i: int, f: Figure, v: Value) {
    0 <= i < |lines| &&
    match f
    case Uptime => v.TextOf? && UptimeLine(lines[i], v.text)
    case Cpu => v.TextOf? && CpuLine(lines[i], v.text)
    case Rss => exists x, y :: MemoryLine(lines[i], x, y) && IsNumber(x, v)
    case Virt => exists x, y :: MemoryLine(lines[i], x, y) && IsNumber(y, v)
    case Counter(section, key) => InBlock(lines, i, section) && exists t :: Entry(lines[i], key, t) && IsNumber(t, v)
    case Pppoe(name) => InBlock(lines, i, "pppoe") && exists key, t :: Entry(lines[i], key, t) && PppoeGives(key, t, name, v)
  }

  /** The latest of the first `k` lines that gives the figure gives this value. */
  ghost predicate Latest(lines: seq<string>, k: int, f: Figure, found: Option<Value>) {
    match found
    case None => forall i, v :: i < k ==> !Gives(lines, i, f, v)
    case Some(x) => exists i :: i < k && Gives(lines, i, f, x) && forall j, v :: i < j < k ==> !Gives(lines, j, f, v)
  }

  /** The figure is `w`: the latest value given, or the default. */
  ghost predicate Reported(lines: seq<string>, k: int, f: Figure, default: Value, w: Value) {
    Latest(lines, k, f, Some(w)) || (Latest(lines, k, f, None) && w == default)
  }

  lemma LatestStep(lines: seq<string>, k: int, f: Figure, found: Option<Value>, next: Option<Value>)
    requires Latest(lines, k, f, found)
    requires forall v :: Gives(lines, k, f, v) ==> next == Some(v)
    requires (forall v :: !Gives(lines, k, f, v)) ==> next == found
    ensures Latest(lines, k + 1, f, next)
  {
    hide Gives;
    if forall v :: !Gives(lines, k, f, v) {
      if found.Some? {
        var i :| i < k && Gives(lines, i, f, found.value) && forall j, v :: i < j < k ==> !Gives(lines, j, f, v);
        assert i < k + 1 && Gives(lines, i, f, next.value) && forall j, v :: i < j < k + 1 ==> !Gives(lines, j, f, v);
      }
    } else {
      var v :| Gives(lines, k, f, v);
      assert k < k + 1 && Gives(lines, k, f, next.value);
    }
  }

  lemma ReportedStep(lines: seq<string>, k: int, f: Figure, default: Value, w: Value, next: Value)
    requires Reported(lines, k, f, default, w)
    requires forall v :: Gives(lines, k, f, v) ==> next == v
    requires (forall v :: !Gives(lines, k, f, v)) ==> next == w
    ensures Reported(lines, k + 1, f, default, next)
  {
    hide Gives, Latest;
    var found := if Latest(lines, k, f, Some(w)) then Some(w) else None;
    if forall v :: !Gives(lines, k, f, v) {
      LatestStep(lines, k, f, found, found);
    } else {
      LatestStep(lines, k, f, found, Some(next));
    }
  }

  lemma NothingReported(lines: seq<string>, f: Figure, default: Value)
    ensures Latest(lines, 0, f, None) && Reported(lines, 0, f, default, default)
  {
    assert forall i, v :: i < 0 ==> !Gives(lines, i, f, v);
  }

  // ---------------------------------------------------------------------------
  // Lines at the margin
  // ---------------------------------------------------------------------------

  lemma AfterPrefix(s: string, front: string)
    requires |front| > 0 && front[|front| - 1] == ':' && (forall i :: 0 <= i < |front| - 1 ==> front[i] != ':')
    ensures front <= s <==> exists b :: s == front + b
    ensures forall b :: s == front + b ==> AfterColon(s) == Strip(b)
  {
    hide Strip;
    if front <= s {
      assert s == front + s[|front|..];
    }
    forall b | s == front + b
      ensures AfterColon(s) == Strip(b)
    {
      var a := front[..|front| - 1];
      assert front == a + [':'];
      assert s == a + [':'] + b;
      ColonAt(s, a, b);
    }
  }

  lemma UptimeIff(raw: string, t: string)
    ensures UptimeLine(raw, t) <==> AtMargin(raw) && "uptime:" <= Strip(raw) && t == AfterColon(Strip(raw))
  {
    hide Strip, AfterColon;
    AfterPrefix(Strip(raw), "uptime:");
  }

  lemma CpuIff(raw: string, t: string)
    ensures CpuLine(raw, t) <==> AtMargin(raw) && "cpu:" <= Strip(raw) && t == TrimEnd(AfterColon(Strip(raw)), '%')
  {
    hide Strip, AfterColon, TrimEnd, Without;
    AfterPrefix(Strip(raw), "cpu:");
    TrimEndMeaning(AfterColon(Strip(raw)), '%');
  }

  lemma {:induction false} FirstWordEnds(s: string, from: nat)
    requires from <= |s| && forall i :: 0 <= i < from ==> !IsSpace(s[i])
    ensures FirstWord(s, from) <= s && (forall c :: c in FirstWord(s, from) ==> !IsSpace(c))
    ensures |FirstWord(s, from)| < |s| ==> IsSpace(s[|FirstWord(s, from)|])
    decreases |s| - from
  {
    if from < |s| && !IsSpace(s[from]) {
      FirstWordEnds(s, from + 1);
    }
  }

  lemma FirstWordMeaning(s: string, w: string)
    ensures StartsWithWord(s, w) <==> w == FirstWord(s, 0)
  {
    hide FirstWord;
    var word := FirstWord(s, 0);
    FirstWordEnds(s, 0);
    assert s == word + s[|word|..];
    assert StartsWithWord(s, word);
    WordEnds(s, word);
    if StartsWithWord(s, w) {
      WordEnds(s, w);
      assert w == s[..|w|] && word == s[..|word|];
    }
  }

  lemma WordEnds(s: string, w: string)
    requires StartsWithWord(s, w)
    ensures w <= s && (forall i :: 0 <= i < |w| ==> !IsSpace(s[i])) && (|w| < |s| ==> IsSpace(s[|w|]))
  {
    hide IsSpace;
    var after :| s == w + after && (forall c :: c in w ==> !IsSpace(c)) && (after != "" ==> IsSpace(after[0]));
    assert forall i :: 0 <= i < |w| ==> s[i] == w[i] && w[i] in w;
    assert after != "" ==> s[|w|] == after[0];
  }

  lemma TwoPieces(s: string, x: string, y: string, c: char)
    ensures Split(s, c) == [x, y] <==> s == x + [c] + y && c !in x && c !in y
  {
    SplitMeaning(s, c, [x, y]);
    assert [x, y][1..] == [y];
  }

  lemma MemoryIff(raw: string, x: string, y: string)
    ensures MemoryLine(raw, x, y) <==>
            AtMargin(raw) && "mem(rss/virt):" <= Strip(raw) && Split(FirstWord(AfterColon(Strip(raw)), 0), '/') == [x, y]
  {
    hide Strip, AfterColon, Split, FirstWord, StartsWithWord;
    var s := Strip(raw);
    AfterPrefix(s, "mem(rss/virt):");
    FirstWordMeaning(AfterColon(s), x + ['/'] + y);
    TwoPieces(FirstWord(AfterColon(s), 0), x, y, '/');
  }

  // ---------------------------------------------------------------------------
  // One line
  // ---------------------------------------------------------------------------

  /** How line `k` moves a figure: to what it gives, if it gives anything. */
  ghost predicate Moves(lines: seq<string>, k: int, f: Figure, w: Value, next: Value) {
    && (forall v :: Gives(lines, k, f, v) ==> next == v)
    && ((forall v :: !Gives(lines, k, f, v)) ==> next == w)
  }

  /** The figures both parsers report. */
  ghost predicate BasicReport(lines: seq<string>, k: int, b: Basic) {
    && Reported(lines, k, Uptime, TextOf(""), TextOf(b.uptime))
    && Reported(lines, k, Cpu, TextOf("0"), TextOf(b.cpu))
    && Reported(lines, k, Counter("sessions", "starting"), Number(0), Number(b.sessions.starting))
    && Reported(lines, k, Counter("sessions", "active"), Number(0), Number(b.sessions.active))
    && Reported(lines, k, Counter("sessions", "finishing"), Number(0), Number(b.sessions.finishing))
  }

  ghost predicate BasicMoves(lines: seq<string>, k: int, b: Basic, next: Basic) {
    && Moves(lines, k, Uptime, TextOf(b.uptime), TextOf(next.uptime))
    && Moves(lines, k, Cpu, TextOf(b.cpu), TextOf(next.cpu))
    && Moves(lines, k, Counter("sessions", "starting"), Number(b.sessions.starting), Number(next.sessions.starting))
    && Moves(lines, k, Counter("sessions", "active"), Number(b.sessions.active), Number(next.sessions.active))
    && Moves(lines, k, Counter("sessions", "finishing"), Number(b.sessions.finishing), Number(next.sessions.finishing))
  }

  lemma MoveReported(lines: seq<string>, k: int, f: Figure, default: Value, w: Value, next: Value)
    requires Reported(lines, k, f, default, w) && Moves(lines, k, f, w, next)
    ensures Reported(lines, k + 1, f, default, next)
  {
    hide Gives, Latest, Reported;
    ReportedStep(lines, k, f, default, w, next);
  }

  lemma BasicStep(lines: seq<string>, k: int, b: Basic, next: Basic)
    requires BasicReport(lines, k, b) && BasicMoves(lines, k, b, next)
    ensures BasicReport(lines, k + 1, next)
  {
    hide Reported, Moves;
    MoveReported(lines, k, Uptime, TextOf(""), TextOf(b.uptime), TextOf(next.uptime));
    MoveReported(lines, k, Cpu, TextOf("0"), TextOf(b.cpu), TextOf(next.cpu));
    MoveReported(lines, k, Counter("sessions", "starting"), Number(0), Number(b.sessions.starting), Number(next.sessions.starting));
    MoveReported(lines, k, Counter("sessions", "active"), Number(0), Number(b.sessions.active), Number(next.sessions.active));
    MoveReported(lines, k, Counter("sessions", "finishing"), Number(0), Number(b.sessions.finishing), Number(next.sessions.finishing));
  }

  /** A line of one kind gives no figure of the other kinds. */
  lemma WhichGive(lines: seq<string>, k: int, f: Figure, v: Value)
    requires 0 <= k < |lines| && Gives(lines, k, f, v)
    ensures f.Uptime? || f.Cpu? || f.Rss? || f.Virt? ==> AtMargin(lines[k])
    ensures f.Counter? || f.Pppoe? ==> Indented(lines[k])
  {
    hide Strip, Entry, PppoeGives, IsNumber, StartsWithWord, Without, BlockAt;
  }

  lemma QuietLine(lines: seq<string>, k: int, b: Basic)
    requires 0 <= k < |lines| && !AtMargin(lines[k]) && !InBlock(lines, k, "sessions")
    ensures BasicMoves(lines, k, b, b)
  {
    hide Strip, Entry, PppoeGives, IsNumber, StartsWithWord, Without, BlockAt;
  }

  lemma MarginBasic(lines: seq<string>, k: int, b: Basic)
    requires 0 <= k < |lines| && AtMargin(lines[k])
    ensures BasicMoves(lines, k, b, WithUptime(b, Strip(lines[k])))
  {
    hide Strip, Entry, IsNumber, Without, BlockAt, AfterColon, TrimEnd, UptimeLine, CpuLine, AtMargin;
    var raw, s := lines[k], Strip(lines[k]);
    assert !Indented(raw) by { NotBoth(raw); }
    forall t
      ensures UptimeLine(raw, t) <==> "uptime:" <= s && t == AfterColon(s)
      ensures CpuLine(raw, t) <==> "cpu:" <= s && t == TrimEnd(AfterColon(s), '%')
    {
      UptimeIff(raw, t);
      CpuIff(raw, t);
    }
    assert "uptime:"[0] == 'u' && "cpu:"[0] == 'c';
    if "uptime:" <= s {
      assert Gives(lines, k, Uptime, TextOf(AfterColon(s)));
    }
    if "cpu:" <= s {
      assert Gives(lines, k, Cpu, TextOf(TrimEnd(AfterColon(s), '%')));
    }
  }

  lemma NotBoth(raw: string)
    ensures !(AtMargin(raw) && Indented(raw))
  {
  }

  /** What an entry of a block gives to the counter of a key. */
  lemma CounterGives(lines: seq<string>, k: int, section: string, key: string, v: Value)
    requires InBlock(lines, k, section)
    ensures var s := Strip(lines[k]);
            Gives(lines, k, Counter(section, key), v) <==> ':' in s && KeyPart(s) == key && IsNumber(AfterColon(s), v)
  {
    hide Strip, KeyPart, AfterColon, BlockAt, IsNumber, Entry, Indented;
    var raw, s := lines[k], Strip(lines[k]);
    forall t
      ensures Entry(raw, key, t) <==> ':' in s && KeyPart(s) == key && AfterColon(s) == t
    {
      EntryIff(raw, key, t);
    }
  }

  /** The number an entry gives to a key, if it does. */
  function GivenTo(s: string, key: string): Option<int> {
    if ':' in s && KeyPart(s) == key then ParseInt(AfterColon(s)) else None
  }

  lemma CounterGiven(lines: seq<string>, k: int, section: string, key: string)
    requires InBlock(lines, k, section)
    ensures var n := GivenTo(Strip(lines[k]), key);
            && (n.Some? ==> Gives(lines, k, Counter(section, key), Number(n.value)))
            && (n.Some? ==> forall v :: Gives(lines, k, Counter(section, key), v) ==> v == Number(n.value))
            && (n.None? ==> forall v :: !Gives(lines, k, Counter(section, key), v))
  {
    hide Strip, KeyPart, AfterColon, BlockAt, Gives, ParseInt, Indented;
    forall v
      ensures Gives(lines, k, Counter(section, key), v) <==>
              GivenTo(Strip(lines[k]), key).Some? && v == Number(GivenTo(Strip(lines[k]), key).value)
    {
      CounterGives(lines, k, section, key, v);
    }
  }

  lemma BlockBasic(lines: seq<string>, k: int, b: Basic)
    requires InBlock(lines, k, "sessions")
    ensures var s := Strip(lines[k]);
            BasicMoves(lines, k, b, if ':' in s then WithSession(b, KeyPart(s), AfterColon(s)) else b)
  {
    hide Strip, KeyPart, AfterColon, BlockAt, Gives, ParseInt;
    NotBoth(lines[k]);
    forall v
      ensures !Gives(lines, k, Uptime, v) && !Gives(lines, k, Cpu, v)
    {
      if Gives(lines, k, Uptime, v) {
        WhichGive(lines, k, Uptime, v);
      }
      if Gives(lines, k, Cpu, v) {
        WhichGive(lines, k, Cpu, v);
      }
    }
    SessionKeys();
    CounterGiven(lines, k, "sessions", "starting");
    CounterGiven(lines, k, "sessions", "active");
    CounterGiven(lines, k, "sessions", "finishing");
  }

  lemma SessionKeys()
    ensures "starting" != "active" && "starting" != "finishing" && "active" != "finishing"
  {
    assert "starting"[0] == 's' && "active"[0] == 'a' && "finishing"[0] == 'f';
  }

  // ---------------------------------------------------------------------------
  // The short parser
  // ---------------------------------------------------------------------------

  lemma SessionsStep(lines: seq<string>, k: int, section: Option<string>)
    requires 0 <= k < |lines| && (section == Some(SESSIONS) <==> BlockAt(lines, k, "sessions"))
    ensures AtMargin(lines[k]) ==>
              (SectionOf(Strip(lines[k])) == Some(SESSIONS) <==> BlockAt(lines, k + 1, "sessions"))
    ensures !AtMargin(lines[k]) ==> (section == Some(SESSIONS) <==> BlockAt(lines, k + 1, "sessions"))
  {
    hide SectionOf, BlockAt, Opens, Strip, AtMargin;
    BlockStep(lines, k, "sessions");
    if AtMargin(lines[k]) {
      SectionIff(lines[k], "sessions");
    }
  }

  lemma {:induction false} ShortFrom(lines: seq<string>, k: nat, section: Option<string>, b: Basic)
    requires k <= |lines| && BasicReport(lines, k, b)
    requires section == Some(SESSIONS) <==> BlockAt(lines, k, "sessions")
    ensures BasicReport(lines, |lines|, ScanBasic(lines[k..], section, b))
    decreases |lines| - k
  {
    hide Strip, SectionOf, WithUptime, WithSession, KeyPart, AfterColon, BlockAt, BasicReport, BasicMoves, Blank, TopLevel, AtMargin,
      Indented;
    if k < |lines| {
      var raw := lines[k];
      var s := Strip(raw);
      assert lines[k..][0] == raw && lines[k..][1..] == lines[k + 1..];
      LineKinds(raw);
      NotBoth(raw);
      SessionsStep(lines, k, section);
      if AtMargin(raw) {
        MarginBasic(lines, k, b);
        BasicStep(lines, k, b, WithUptime(b, s));
        ShortFrom(lines, k + 1, SectionOf(s), WithUptime(b, s));
      } else if Indented(raw) && section == Some(SESSIONS) {
        var next := if ':' in s then WithSession(b, KeyPart(s), AfterColon(s)) else b;
        BlockBasic(lines, k, b);
        BasicStep(lines, k, b, next);
        ShortFrom(lines, k + 1, section, next);
      } else {
        QuietLine(lines, k, b);
        BasicStep(lines, k, b, b);
        ShortFrom(lines, k + 1, section, b);
      }
    }
  }

  /** What the short parser reports: the uptime and the cpu load of the latest such line at
      the margin, and each session counter of the latest line of a `sessions` block that
      gives it a number; or the defaults. */
  lemma ShortMeaning(lines: seq<string>)
    ensures BasicReport(lines, |lines|, ScanBasic(lines, None, NO_STAT))
  {
    hide ScanBasic, Reported, Latest;
    NothingReported(lines, Uptime, TextOf(""));
    NothingReported(lines, Cpu, TextOf("0"));
    NothingReported(lines, Counter("sessions", "starting"), Number(0));
    NothingReported(lines, Counter("sessions", "active"), Number(0));
    NothingReported(lines, Counter("sessions", "finishing"), Number(0));
    assert lines[0..] == lines;
    ShortFrom(lines, 0, None, NO_STAT);
  }

  // ---------------------------------------------------------------------------
  // The counters of the pppoe section
  // ---------------------------------------------------------------------------

  /** What a table of counters holds under a name. */
  function At(m: map<string, int>, name: string): Option<Value> {
    if name in m then Some(Number(m[name])) else None
  }

  lemma UpToIff(s: string, c: char, t: string)
    ensures UpTo(s, c, t) <==> t == Split(s, c)[0]
  {
    var n := Find(s, c);
    assert s == s[..n] + s[n..];
    assert Split(s, c)[0] == s[..n];
    if UpTo(s, c, t) {
      var after :| s == t + after && (after != "" ==> after[0] == c);
      assert after != "" ==> s[|t|] == c;
      assert forall i :: 0 <= i < |t| ==> s[i] == t[i];
      assert n == |t|;
      assert t == s[..n];
    }
  }

  lemma PppoeKeysDiffer()
    ensures "starting" != "active" && "starting" != "delayed PADO" && "starting" != "recv PADI" && "starting" != "drop PADI"
    ensures "starting" != "sent PADO" && "starting" != "sent PADS" && "starting" != "filtered"
    ensures "active" != "delayed PADO" && "active" != "recv PADI" && "active" != "drop PADI" && "active" != "sent PADO"
    ensures "active" != "sent PADS" && "active" != "filtered"
    ensures "delayed PADO" != "recv PADI" && "delayed PADO" != "drop PADI" && "delayed PADO" != "sent PADO"
    ensures "delayed PADO" != "sent PADS" && "delayed PADO" != "filtered"
    ensures "recv PADI" != "drop PADI" && "recv PADI" != "sent PADO" && "recv PADI" != "sent PADS" && "recv PADI" != "filtered"
    ensures "drop PADI" != "sent PADO" && "drop PADI" != "sent PADS" && "drop PADI" != "filtered"
    ensures "sent PADO" != "sent PADS" && "sent PADO" != "filtered" && "sent PADS" != "filtered"
  {
    assert "starting"[0] == 's' && "active"[0] == 'a' && "delayed PADO"[0] == 'd' && "recv PADI"[0] == 'r';
    assert "drop PADI"[0] == 'd' && "sent PADO"[0] == 's' && "sent PADS"[0] == 's' && "filtered"[0] == 'f';
    assert "starting"[1] == 't' && "sent PADO"[1] == 'e' && "sent PADS"[1] == 'e';
    assert "delayed PADO"[1] == 'e' && "drop PADI"[1] == 'r';
    assert "sent PADO"[8] == 'O' && "sent PADS"[8] == 'S';
  }

  lemma PppoeLabelIff(key: string, name: string)
    ensures PppoeLabel(key, name) <==> key in PPPOE_KEYS && PPPOE_KEYS[key] == name
  {
    PppoeKeysDiffer();
  }

  lemma PadrIsNoLabel(key: string)
    requires "recv PADR" <= key
    ensures key !in PPPOE_KEYS
  {
    assert "recv PADR"[0] == 'r' && "recv PADR"[8] == 'R';
    assert key[0] == 'r' && key[8] == 'R';
    assert "starting"[0] == 's' && "active"[0] == 'a' && "delayed PADO"[0] == 'd' && "recv PADI"[8] == 'I';
    assert "drop PADI"[0] == 'd' && "sent PADO"[0] == 's' && "sent PADS"[0] == 's' && "filtered"[0] == 'f';
  }

  lemma PadrNames()
    ensures "recv_padr" != "recv_padr_dup"
  {
    assert |"recv_padr"| < |"recv_padr_dup"|;
  }

  /** The text an entry gives to a counter of the report, before it is read as a number. */
  function PppoeText(key: string, val: string, name: string): Option<string> {
    if key in PPPOE_KEYS then if PPPOE_KEYS[key] == name then Some(val) else None
    else if !("recv PADR" <= key) then None
    else if '(' !in val then if name == "recv_padr" then Some(val) else None
    else if name == "recv_padr" then Some(Split(val, '(')[0])
    else if name == "recv_padr_dup" && |Split(val, '(')| > 1 then Some(TrimEnd(Split(val, '(')[1], ')'))
    else None
  }

  lemma CutParen(val: string, a: string, b: string)
    ensures val == a + ['('] + b && '(' !in a ==>
              '(' in val && Split(val, '(')[0] == a && |Split(val, '(')| > 1 && Split(val, '(')[1] == Split(b, '(')[0]
    ensures '(' in val ==> exists x, y :: val == x + ['('] + y && '(' !in x
  {
    hide Split;
    if val == a + ['('] + b && '(' !in a {
      SplitCons(a, '(', b);
      assert val[|a|] == '(';
    }
    if '(' in val {
      var n := Find(val, '(');
      assert n < |val|;
      assert val == val[..n] + ['('] + val[n + 1..];
    }
  }

  /** The number before the parenthesis and the one after it. */
  lemma ParenGives(val: string, v: Value)
    requires '(' in val
    ensures |Split(val, '(')| > 1
    ensures (exists a, b :: val == a + ['('] + b && '(' !in a && IsNumber(a, v)) <==> IsNumber(Split(val, '(')[0], v)
    ensures (exists a, b, dup, t :: val == a + ['('] + b && '(' !in a && UpTo(b, '(', dup) && Without(dup, ')', t) && IsNumber(t, v))
            <==> IsNumber(TrimEnd(Split(val, '(')[1], ')'), v)
  {
    hide Split, TrimEnd, Without, UpTo, IsNumber;
    CutParen(val, "", "");
    var x, y :| val == x + ['('] + y && '(' !in x;
    CutParen(val, x, y);
    var second := Split(val, '(')[1];
    UpToIff(y, '(', second);
    TrimEndMeaning(second, ')');
    assert Without(second, ')', TrimEnd(second, ')'));
    if a, b, dup, t :| val == a + ['('] + b && '(' !in a && UpTo(b, '(', dup) && Without(dup, ')', t) && IsNumber(t, v) {
      CutParen(val, a, b);
      UpToIff(b, '(', dup);
    }
    if a, b :| val == a + ['('] + b && '(' !in a && IsNumber(a, v) {
      CutParen(val, a, b);
    }
  }

  lemma NoParen(val: string, a: string, b: string)
    requires '(' !in val
    ensures val != a + ['('] + b
  {
    assert (a + ['('] + b)[|a|] == '(';
  }

  lemma PppoeGivesIff(key: string, val: string, name: string, v: Value)
    ensures PppoeGives(key, val, name, v) <==>
            PppoeText(key, val, name).Some? && IsNumber(PppoeText(key, val, name).value, v)
  {
    hide Split, TrimEnd, Without, UpTo, IsNumber, PppoeLabel;
    PppoeLabelIff(key, name);
    PadrNames();
    if "recv PADR" <= key {
      PadrIsNoLabel(key);
      if '(' in val {
        ParenGives(val, v);
      } else {
        forall a, b
          ensures val != a + ['('] + b
        {
          NoParen(val, a, b);
        }
      }
    }
  }

  lemma PppoeGiven(m: map<string, int>, key: string, val: string, name: string)
    ensures var t := PppoeText(key, val, name);
            At(WithPppoe(m, key, val), name) ==
            if t.Some? && ParseInt(t.value).Some? then Some(Number(ParseInt(t.value).value)) else At(m, name)
  {
    hide Split, TrimEnd, ParseInt;
    PadrNames();
    if '(' in val {
      CutParen(val, "", "");
      var x, y :| val == x + ['('] + y && '(' !in x;
      CutParen(val, x, y);
    }
  }

  // ---------------------------------------------------------------------------
  // What only the extended parser reports
  // ---------------------------------------------------------------------------

  /** Memory by position, and every counter of the `core` and `pppoe` sections: a counter is
      reported exactly if some line gives it, with the latest value. */
  ghost predicate ExtraReport(lines: seq<string>, k: int, e: Extended) {
    && Reported(lines, k, Rss, Number(0), Number(e.rss))
    && Reported(lines, k, Virt, Number(0), Number(e.virt))
    && (forall key :: Latest(lines, k, Counter("core", key), At(e.core, key)))
    && (forall name :: Latest(lines, k, Pppoe(name), At(e.pppoe, name)))
  }

  ghost predicate MovesAt(lines: seq<string>, k: int, f: Figure, found: Option<Value>, next: Option<Value>) {
    && (forall v :: Gives(lines, k, f, v) ==> next == Some(v))
    && ((forall v :: !Gives(lines, k, f, v)) ==> next == found)
  }

  ghost predicate ExtraMoves(lines: seq<string>, k: int, e: Extended, next: Extended) {
    && Moves(lines, k, Rss, Number(e.rss), Number(next.rss))
    && Moves(lines, k, Virt, Number(e.virt), Number(next.virt))
    && (forall key :: MovesAt(lines, k, Counter("core", key), At(e.core, key), At(next.core, key)))
    && (forall name :: MovesAt(lines, k, Pppoe(name), At(e.pppoe, name), At(next.pppoe, name)))
  }

  lemma MoveLatest(lines: seq<string>, k: int, f: Figure, found: Option<Value>, next: Option<Value>)
    requires Latest(lines, k, f, found) && MovesAt(lines, k, f, found, next)
    ensures Latest(lines, k + 1, f, next)
  {
    hide Gives, Latest;
    LatestStep(lines, k, f, found, next);
  }

  lemma ExtraStep(lines: seq<string>, k: int, e: Extended, next: Extended)
    requires ExtraReport(lines, k, e) && ExtraMoves(lines, k, e, next)
    ensures ExtraReport(lines, k + 1, next)
  {
    hide Reported, Moves, MovesAt, Latest, At;
    MoveReported(lines, k, Rss, Number(0), Number(e.rss), Number(next.rss));
    MoveReported(lines, k, Virt, Number(0), Number(e.virt), Number(next.virt));
    forall key
      ensures Latest(lines, k + 1, Counter("core", key), At(next.core, key))
    {
      MoveLatest(lines, k, Counter("core", key), At(e.core, key), At(next.core, key));
    }
    forall name
      ensures Latest(lines, k + 1, Pppoe(name), At(next.pppoe, name))
    {
      MoveLatest(lines, k, Pppoe(name), At(e.pppoe, name), At(next.pppoe, name));
    }
  }

  lemma QuietExtra(lines: seq<string>, k: int, e: Extended)
    requires 0 <= k < |lines| && !AtMargin(lines[k])
    requires !InBlock(lines, k, "core") && !InBlock(lines, k, "pppoe")
    ensures ExtraMoves(lines, k, e, e)
  {
    hide Strip, Entry, PppoeGives, IsNumber, StartsWithWord, Without, BlockAt;
  }

  lemma NoCounters(lines: seq<string>, k: int, f: Figure, v: Value)
    requires 0 <= k < |lines| && AtMargin(lines[k]) && (f.Counter? || f.Pppoe?)
    ensures !Gives(lines, k, f, v)
  {
    hide Gives, AtMargin, Indented;
    NotBoth(lines[k]);
    if Gives(lines, k, f, v) {
      WhichGive(lines, k, f, v);
    }
  }

  lemma NoMemory(lines: seq<string>, k: int, f: Figure, v: Value)
    requires 0 <= k < |lines| && Indented(lines[k]) && (f.Rss? || f.Virt?)
    ensures !Gives(lines, k, f, v)
  {
    hide Gives, AtMargin, Indented;
    NotBoth(lines[k]);
    if Gives(lines, k, f, v) {
      WhichGive(lines, k, f, v);
    }
  }

  lemma MemoryMoves(lines: seq<string>, k: int, e: Extended)
    requires 0 <= k < |lines| && AtMargin(lines[k])
    ensures var s := Strip(lines[k]);
            var next := if "mem(rss/virt):" <= s then WithMemory(e, s) else e;
            Moves(lines, k, Rss, Number(e.rss), Number(next.rss)) && Moves(lines, k, Virt, Number(e.virt), Number(next.virt))
  {
    hide Strip, AfterColon, Split, FirstWord, MemoryLine, ParseInt, AtMargin;
    var raw, s := lines[k], Strip(lines[k]);
    var parts := Split(FirstWord(AfterColon(s), 0), '/');
    forall x, y
      ensures MemoryLine(raw, x, y) <==> "mem(rss/virt):" <= s && parts == [x, y]
    {
      MemoryIff(raw, x, y);
    }
    if "mem(rss/virt):" <= s && |parts| == 2 {
      assert parts == [parts[0], parts[1]];
      assert MemoryLine(raw, parts[0], parts[1]);
      if ParseInt(parts[0]).Some? {
        assert IsNumber(parts[0], Number(ParseInt(parts[0]).value));
        assert Gives(lines, k, Rss, Number(ParseInt(parts[0]).value));
      }
      if ParseInt(parts[1]).Some? {
        assert IsNumber(parts[1], Number(ParseInt(parts[1]).value));
        assert Gives(lines, k, Virt, Number(ParseInt(parts[1]).value));
      }
    }
  }

  lemma MarginExtra(lines: seq<string>, k: int, e: Extended, next: Extended)
    requires 0 <= k < |lines| && AtMargin(lines[k])
    requires var m := if "mem(rss/virt):" <= Strip(lines[k]) then WithMemory(e, Strip(lines[k])) else e;
             next.rss == m.rss && next.virt == m.virt && next.core == e.core && next.pppoe == e.pppoe
    ensures ExtraMoves(lines, k, e, next)
  {
    hide Gives, WithMemory, Strip, AtMargin, At;
    MemoryMoves(lines, k, e);
    forall f: Figure, v | f.Counter? || f.Pppoe?
      ensures !Gives(lines, k, f, v)
    {
      NoCounters(lines, k, f, v);
    }
  }

  lemma CoreExtra(lines: seq<string>, k: int, e: Extended)
    requires InBlock(lines, k, "core") && !InBlock(lines, k, "pppoe")
    ensures var s := Strip(lines[k]);
            ExtraMoves(lines, k, e, if ':' in s then e.(core := SetNumber(e.core, KeyPart(s), AfterColon(s))) else e)
  {
    hide Strip, KeyPart, AfterColon, BlockAt, ParseInt, Gives;
    var s := Strip(lines[k]);
    var next := if ':' in s then e.(core := SetNumber(e.core, KeyPart(s), AfterColon(s))) else e;
    forall f: Figure, v | f.Rss? || f.Virt?
      ensures !Gives(lines, k, f, v)
    {
      NoMemory(lines, k, f, v);
    }
    forall name, v
      ensures !Gives(lines, k, Pppoe(name), v)
    {
      NotPppoe(lines, k, name, v);
    }
    forall key
      ensures MovesAt(lines, k, Counter("core", key), At(e.core, key), At(next.core, key))
    {
      CounterGiven(lines, k, "core", key);
    }
  }

  lemma NotPppoe(lines: seq<string>, k: int, name: string, v: Value)
    requires !InBlock(lines, k, "pppoe")
    ensures !Gives(lines, k, Pppoe(name), v)
  {
    hide InBlock, Entry, PppoeGives;
  }

  lemma NotCounter(lines: seq<string>, k: int, section: string, key: string, v: Value)
    requires !InBlock(lines, k, section)
    ensures !Gives(lines, k, Counter(section, key), v)
  {
    hide InBlock, Entry, IsNumber;
  }

  lemma EntryGives(lines: seq<string>, k: int, name: string)
    requires InBlock(lines, k, "pppoe")
    ensures var s := Strip(lines[k]);
            var t := if ':' in s then PppoeText(KeyPart(s), AfterColon(s), name) else None;
            forall v :: Gives(lines, k, Pppoe(name), v) <==> t.Some? && IsNumber(t.value, v)
  {
    hide Strip, KeyPart, AfterColon, BlockAt, IsNumber, Entry, Indented, PppoeGives, PppoeText;
    var raw, s := lines[k], Strip(lines[k]);
    forall key, t
      ensures Entry(raw, key, t) <==> ':' in s && KeyPart(s) == key && AfterColon(s) == t
    {
      EntryIff(raw, key, t);
    }
    forall v
      ensures PppoeGives(KeyPart(s), AfterColon(s), name, v) <==>
              PppoeText(KeyPart(s), AfterColon(s), name).Some? && IsNumber(PppoeText(KeyPart(s), AfterColon(s), name).value, v)
    {
      PppoeGivesIff(KeyPart(s), AfterColon(s), name, v);
    }
  }

  lemma PppoeExtra(lines: seq<string>, k: int, e: Extended)
    requires InBlock(lines, k, "pppoe") && !InBlock(lines, k, "core")
    ensures var s := Strip(lines[k]);
            ExtraMoves(lines, k, e, if ':' in s then e.(pppoe := WithPppoe(e.pppoe, KeyPart(s), AfterColon(s))) else e)
  {
    hide Strip, KeyPart, AfterColon, BlockAt, ParseInt, Gives, PppoeText, WithPppoe;
    var s := Strip(lines[k]);
    var next := if ':' in s then e.(pppoe := WithPppoe(e.pppoe, KeyPart(s), AfterColon(s))) else e;
    forall f: Figure, v | f.Rss? || f.Virt?
      ensures !Gives(lines, k, f, v)
    {
      NoMemory(lines, k, f, v);
    }
    forall key, v
      ensures !Gives(lines, k, Counter("core", key), v)
    {
      NotCounter(lines, k, "core", key, v);
    }
    forall name
      ensures MovesAt(lines, k, Pppoe(name), At(e.pppoe, name), At(next.pppoe, name))
    {
      EntryGives(lines, k, name);
      PppoeGiven(e.pppoe, KeyPart(s), AfterColon(s), name);
      var t := if ':' in s then PppoeText(KeyPart(s), AfterColon(s), name) else None;
      if t.Some? && ParseInt(t.value).Some? {
        assert IsNumber(t.value, Number(ParseInt(t.value).value));
        assert Gives(lines, k, Pppoe(name), Number(ParseInt(t.value).value));
      }
    }
  }

  // ---------------------------------------------------------------------------
  // The extended parser
  // ---------------------------------------------------------------------------

  /** The sections whose counters only the extended parser reports. */
  ghost predicate Sectioned(lines: seq<string>, k: int, p: Progress)
    requires 0 <= k <= |lines|
  {
    && (p.section == Some("core") <==> BlockAt(lines, k, "core"))
    && (p.section == Some("pppoe") <==> BlockAt(lines, k, "pppoe"))
  }

  lemma SpecialOpensNothing(raw: string)
    requires var s := Strip(raw); "uptime:" <= s || "cpu:" <= s || "mem(rss/virt):" <= s || "radius(" <= s
    ensures !Opens(raw, "core") && !Opens(raw, "pppoe")
  {
    hide Strip;
    var s := Strip(raw);
    assert "uptime:"[0] == 'u' && "cpu:"[0] == 'c' && "cpu:"[1] == 'p' && "mem(rss/virt):"[0] == 'm' && "radius("[0] == 'r';
    assert s[0] in {'u', 'm', 'r'} || (s[0] == 'c' && s[1] == 'p');
    assert "core"[0] == 'c' && "core"[1] == 'o' && "pppoe"[0] == 'p';
    forall n: nat
      ensures s != "core" + Repeated(':', n) && s != "pppoe" + Repeated(':', n)
    {
      assert ("core" + Repeated(':', n))[0] == 'c' && ("core" + Repeated(':', n))[1] == 'o';
      assert ("pppoe" + Repeated(':', n))[0] == 'p';
    }
  }

  lemma RadiusIsNoCounter()
    ensures "radius" != "core" && "radius" != "pppoe" && "core" != "pppoe" && "core" != SESSIONS && "pppoe" != SESSIONS
  {
    assert "radius"[0] == 'r' && "core"[0] == 'c' && "pppoe"[0] == 'p' && SESSIONS[0] == 's';
  }

  lemma TopSection(raw: string, p: Progress)
    requires AtMargin(raw) && !AfterTop(p, Strip(raw)).failed
    ensures var q := AfterTop(p, Strip(raw));
            && (q.section == Some("core") <==> Opens(raw, "core"))
            && (q.section == Some("pppoe") <==> Opens(raw, "pppoe"))
  {
    hide Strip, SectionOf, Opens, RadiusHeader, WithMemory, WithUptime, AtMargin;
    var s := Strip(raw);
    SectionIff(raw, "core");
    SectionIff(raw, "pppoe");
    RadiusIsNoCounter();
    if "uptime:" <= s || "cpu:" <= s || "mem(rss/virt):" <= s || "radius(" <= s {
      SpecialOpensNothing(raw);
    }
  }

  lemma TopFigures(p: Progress, s: string)
    ensures var q, m := AfterTop(p, s), if "mem(rss/virt):" <= s then WithMemory(p.e, s) else p.e;
            !q.failed ==> q.e.rss == m.rss && q.e.virt == m.virt && q.e.core == p.e.core && q.e.pppoe == p.e.pppoe
  {
    hide AfterColon, Split, FirstWord, SectionOf, WithUptime, RadiusHeader;
    NotUptime(s);
  }

  lemma MarginStep(lines: seq<string>, k: int, p: Progress)
    requires 0 <= k < |lines| && AtMargin(lines[k]) && ExtraReport(lines, k, p.e)
    requires !AfterTop(p, Strip(lines[k])).failed
    ensures var q := AfterTop(p, Strip(lines[k]));
            ExtraReport(lines, k + 1, q.e) && Sectioned(lines, k + 1, q)
  {
    hide Strip, AfterTop, WithMemory, ExtraReport, ExtraMoves, BlockAt, Opens, AtMargin;
    var q := AfterTop(p, Strip(lines[k]));
    TopFigures(p, Strip(lines[k]));
    MarginExtra(lines, k, p.e, q.e);
    ExtraStep(lines, k, p.e, q.e);
    TopSection(lines[k], p);
    BlockStep(lines, k, "core");
    BlockStep(lines, k, "pppoe");
  }

  lemma IndentedFigures(p: Progress, s: string)
    ensures var q := AfterIndented(p, s);
            && q.section == p.section && q.failed == p.failed && q.e.rss == p.e.rss && q.e.virt == p.e.virt
            && q.e.core == (if p.section == Some("core") && ':' in s then SetNumber(p.e.core, KeyPart(s), AfterColon(s)) else p.e.core)
            && q.e.pppoe == (if p.section == Some("pppoe") && ':' in s then WithPppoe(p.e.pppoe, KeyPart(s), AfterColon(s)) else p.e.pppoe)
  {
    hide WithSession, WithPppoe, WithRadius, SetNumber, KeyPart, AfterColon;
    RadiusIsNoCounter();
  }

  /** The counters that a report tells. */
  lemma SameExtra(lines: seq<string>, k: int, e: Extended, f: Extended)
    requires ExtraReport(lines, k, e) && e.rss == f.rss && e.virt == f.virt && e.core == f.core && e.pppoe == f.pppoe
    ensures ExtraReport(lines, k, f)
  {
    hide Reported, Latest;
  }

  lemma IndentedStep(lines: seq<string>, k: int, p: Progress)
    requires 0 <= k < |lines| && Indented(lines[k]) && ExtraReport(lines, k, p.e) && Sectioned(lines, k, p)
    ensures var q := AfterIndented(p, Strip(lines[k]));
            ExtraReport(lines, k + 1, q.e) && Sectioned(lines, k + 1, q)
  {
    hide Strip, AfterIndented, WithPppoe, SetNumber, ExtraReport, ExtraMoves, BlockAt, KeyPart, AfterColon, AtMargin, Indented;
    var q, s := AfterIndented(p, Strip(lines[k])), Strip(lines[k]);
    RadiusIsNoCounter();
    NotBoth(lines[k]);
    IndentedFigures(p, s);
    BlockStep(lines, k, "core");
    BlockStep(lines, k, "pppoe");
    if p.section == Some("core") {
      var next := if ':' in s then p.e.(core := SetNumber(p.e.core, KeyPart(s), AfterColon(s))) else p.e;
      CoreExtra(lines, k, p.e);
      ExtraStep(lines, k, p.e, next);
      SameExtra(lines, k + 1, next, q.e);
    } else if p.section == Some("pppoe") {
      var next := if ':' in s then p.e.(pppoe := WithPppoe(p.e.pppoe, KeyPart(s), AfterColon(s))) else p.e;
      PppoeExtra(lines, k, p.e);
      ExtraStep(lines, k, p.e, next);
      SameExtra(lines, k + 1, next, q.e);
    } else {
      QuietExtra(lines, k, p.e);
      ExtraStep(lines, k, p.e, p.e);
      SameExtra(lines, k + 1, p.e, q.e);
    }
  }

  lemma BlankStep(lines: seq<string>, k: int, p: Progress)
    requires 0 <= k < |lines| && !AtMargin(lines[k]) && !Indented(lines[k]) && ExtraReport(lines, k, p.e) && Sectioned(lines, k, p)
    ensures ExtraReport(lines, k + 1, p.e) && Sectioned(lines, k + 1, p)
  {
    hide ExtraReport, ExtraMoves, BlockAt, AtMargin, Indented;
    BlockStep(lines, k, "core");
    BlockStep(lines, k, "pppoe");
    QuietExtra(lines, k, p.e);
    ExtraStep(lines, k, p.e, p.e);
  }

  lemma FailureStays(lines: seq<string>, p: Progress)
    ensures p.failed ==> ScanExtended(lines, p).failed
  {
  }

  lemma {:induction false} ExtraFrom(lines: seq<string>, k: nat, p: Progress)
    requires k <= |lines| && !p.failed && ExtraReport(lines, k, p.e) && Sectioned(lines, k, p)
    requires !ScanExtended(lines[k..], p).failed
    ensures ExtraReport(lines, |lines|, ScanExtended(lines[k..], p).e)
    decreases |lines| - k
  {
    hide Strip, AfterTop, AfterIndented, Sectioned, ExtraReport, Blank, TopLevel, AtMargin, Indented;
    if k == |lines| {
      SameExtra(lines, k, p.e, Flush(p).e);
    } else {
      var raw := lines[k];
      assert lines[k..][0] == raw && lines[k..][1..] == lines[k + 1..];
      LineKinds(raw);
      if AtMargin(raw) {
        var q := AfterTop(p, Strip(raw));
        FailureStays(lines[k + 1..], q);
        MarginStep(lines, k, p);
        ExtraFrom(lines, k + 1, q);
      } else if Indented(raw) {
        IndentedStep(lines, k, p);
        IndentedNeverFails(p, Strip(raw));
        ExtraFrom(lines, k + 1, AfterIndented(p, Strip(raw)));
      } else {
        BlankStep(lines, k, p);
        ExtraFrom(lines, k + 1, p);
      }
    }
  }

  /** Whenever the extended parser returns: memory by position, and the counters of the core
      and pppoe sections, each reported exactly if a line of its section gives it, with the
      number of the latest such line. */
  lemma ExtraMeaning(lines: seq<string>)
    requires !ScanExtended(lines, START).failed
    ensures ExtraReport(lines, |lines|, ScanExtended(lines, START).e)
  {
    hide ScanExtended, Reported, Latest;
    NothingReported(lines, Rss, Number(0));
    NothingReported(lines, Virt, Number(0));
    forall key
      ensures Latest(lines, 0, Counter("core", key), None) && Latest(lines, 0, Pppoe(key), None)
    {
      NothingReported(lines, Counter("core", key), Number(0));
      NothingReported(lines, Pppoe(key), Number(0));
    }
    assert lines[0..] == lines;
    ExtraFrom(lines, 0, START);
  }
}
