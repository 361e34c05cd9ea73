/** The two scans of `show stat`: the short one and the one that reads every section. */
module StatScan {
  import opened Text

  datatype Sessions = Sessions(starting: int, active: int, finishing: int)

  /** What both parsers report. */
  datatype Basic = Basic(uptime: string, cpu: string, sessions: Sessions)

  datatype Value = TextOf(text: string) | Number(n: int)
  type Block = map<string, Value>

  datatype Extended = Extended(
    basic: Basic, rss: int, virt: int, core: map<string, int>, pppoe: map<string, int>, radius: seq<Block>)

  const NO_STAT := Basic("", "0", Sessions(0, 0, 0))
  const SESSIONS := "sessions"

  // ---------------------------------------------------------------------------
  // Lines
  // ---------------------------------------------------------------------------

  predicate Blank(raw: string) {
    Strip(raw) == ""
  }

  /** A line with text that is not indented. */
  predicate TopLevel(raw: string) {
    raw != "" && !IsSpace(raw[0])
  }

  /** `s.rstrip(c)` */
  function TrimEnd(s: string, c: char): (r: string)
    ensures r <= s
  {
    if s != "" && s[|s| - 1] == c then TrimEnd(s[..|s| - 1], c) else s
  }

  /** `s.split(":", 1)[1].strip()` */
  function AfterColon(s: string): string {
    var i := Find(s, ':');
    if i < |s| then Strip(s[i + 1..]) else ""
  }

  function KeyPart(s: string): string {
    Strip(s[..Find(s, ':')])
  }

  /** The section a line like `sessions:` opens. */
  function SectionOf(stripped: string): Option<string> {
    if stripped != "" && stripped[|stripped| - 1] == ':' && ' ' !in stripped then Some(TrimEnd(stripped, ':')) else None
  }

  function WithUptime(b: Basic, stripped: string): Basic {
    if "uptime:" <= stripped then b.(uptime := AfterColon(stripped))
    else if "cpu:" <= stripped then b.(cpu := TrimEnd(AfterColon(stripped), '%'))
    else b
  }

  /** One `key: value` line of the sessions block; a value that is no number is ignored. */
  function WithSession(b: Basic, key: string, val: string): Basic {
    match ParseInt(val)
    case None => b
    case Some(n) =>
      if key == "starting" then b.(sessions := b.sessions.(starting := n))
      else if key == "active" then b.(sessions := b.sessions.(active := n))
      else if key == "finishing" then b.(sessions := b.sessions.(finishing := n))
      else b
  }

  // ---------------------------------------------------------------------------
  // The short parser
  // ---------------------------------------------------------------------------

  function ScanBasic(lines: seq<string>, section: Option<string>, b: Basic): Basic {
    if lines == [] then b
    else
      var raw, s := lines[0], Strip(lines[0]);
      if Blank(raw) then ScanBasic(lines[1..], section, b)
      else if TopLevel(raw) then ScanBasic(lines[1..], SectionOf(s), WithUptime(b, s))
      else ScanBasic(lines[1..], section, if section == Some(SESSIONS) && ':' in s then WithSession(b, KeyPart(s), AfterColon(s)) else b)
  }

  /** The lines the short parser may look at: those not indented, and the indented lines of
      a `sessions:` block. */
  function Relevant(lines: seq<string>, inSessions: bool): seq<string> {
    if lines == [] then []
    else if Blank(lines[0]) then Relevant(lines[1..], inSessions)
    else if TopLevel(lines[0]) then [lines[0]] + Relevant(lines[1..], SectionOf(Strip(lines[0])) == Some(SESSIONS))
    else (if inSessions then [lines[0]] else []) + Relevant(lines[1..], inSessions)
  }

  /** Counters of the same name in other sections never reach the short parser's result. */
  lemma {:induction false} OnlySessionsBlock(lines: seq<string>, section: Option<string>, b: Basic)
    ensures ScanBasic(lines, section, b) == ScanBasic(Relevant(lines, section == Some(SESSIONS)), section, b)
  {
    hide Strip, Blank, TopLevel, SectionOf, WithUptime, WithSession, KeyPart, AfterColon;
    if lines != [] {
      var raw, rest, s := lines[0], lines[1..], Strip(lines[0]);
      if Blank(raw) {
        OnlySessionsBlock(rest, section, b);
      } else if TopLevel(raw) {
        OnlySessionsBlock(rest, SectionOf(s), WithUptime(b, s));
        assert ([raw] + Relevant(rest, SectionOf(s) == Some(SESSIONS)))[1..] == Relevant(rest, SectionOf(s) == Some(SESSIONS));
      } else {
        var next := if section == Some(SESSIONS) && ':' in s then WithSession(b, KeyPart(s), AfterColon(s)) else b;
        OnlySessionsBlock(rest, section, next);
        assert ([raw] + Relevant(rest, true))[1..] == Relevant(rest, true);
        assert [] + Relevant(rest, false) == Relevant(rest, false);
      }
    }
  }

  // ---------------------------------------------------------------------------
  // The extended parser
  // ---------------------------------------------------------------------------

  function SetNumber(m: map<string, int>, key: string, val: string): map<string, int> {
    match ParseInt(val)
    case None => m
    case Some(n) => m[key := n]
  }

  function SetField(rad: Block, field: string, val: string): Block {
    match ParseInt(val)
    case None => rad
    case Some(n) => rad[field := Number(n)]
  }

  function NumberOr(val: string, default: int): int {
    match ParseInt(val)
    case None => default
    case Some(n) => n
  }

  function FirstWord(s: string, from: nat): string
    requires from <= |s|
    decreases |s| - from
  {
    if from == |s| || IsSpace(s[from]) then s[..from] else FirstWord(s, from + 1)
  }

  /** `mem(rss/virt): X/Y kB` */
  function WithMemory(e: Extended, stripped: string): Extended {
    var parts := Split(FirstWord(AfterColon(stripped), 0), '/');
    if |parts| == 2 then e.(rss := NumberOr(parts[0], e.rss), virt := NumberOr(parts[1], e.virt)) else e
  }

  const PPPOE_KEYS := map[
    "starting" := "starting", "active" := "active", "delayed PADO" := "delayed_pado", "recv PADI" := "recv_padi",
    "drop PADI" := "drop_padi", "sent PADO" := "sent_pado", "sent PADS" := "sent_pads", "filtered" := "filtered"]

  function WithPppoe(m: map<string, int>, key: string, val: string): map<string, int> {
    if key in PPPOE_KEYS then SetNumber(m, PPPOE_KEYS[key], val)
    else if "recv PADR" <= key then
      if '(' in val then
        var parts := Split(val, '(');
        SetNumber(SetNumber(m, "recv_padr", parts[0]), "recv_padr_dup", if |parts| > 1 then TrimEnd(parts[1], ')') else "")
      else SetNumber(m, "recv_padr", val)
    else m
  }

  /** The header `radius(<id>, <addr>):`; `None` stands for the missing parenthesis that
      raises `ValueError`. */
  function RadiusHeader(stripped: string): Option<Block> {
    var open, close := Find(stripped, '('), Find(stripped, ')');
    if open == |stripped| || close == |stripped| then None
    else
      var parts := Split(if open < close then stripped[open + 1..close] else "", ',');
      Some(map["server_id" := TextOf(Strip(parts[0])),
               "server_address" := TextOf(if |parts| >= 2 then Strip(parts[1]) else "")])
  }

  const RADIUS_KEYS := map[
    "fail count" := "fail_count", "request count" := "request_count", "queue length" := "queue_length",
    "auth sent" := "auth_sent", "acct sent" := "acct_sent", "interim sent" := "interim_sent"]

  const PREFIXES := ["auth", "acct", "interim"]

  function WithLost(rad: Block, key: string, val: string, prefixes: seq<string>): Block {
    if prefixes == [] then rad
    else if key == prefixes[0] + " lost(total/5m/1m)" then
      var parts := Split(val, '/');
      if |parts| == 3 then
        SetField(SetField(SetField(rad, prefixes[0] + "_lost_total", parts[0]), prefixes[0] + "_lost_5m", parts[1]),
                 prefixes[0] + "_lost_1m", parts[2])
      else rad
    else WithLost(rad, key, val, prefixes[1..])
  }

  /** `val.replace("ms", "")` */
  function WithoutMs(s: string): string {
    if |s| >= 2 && s[..2] == "ms" then WithoutMs(s[2..])
    else if s == "" then ""
    else [s[0]] + WithoutMs(s[1..])
  }

  function WithAverage(rad: Block, key: string, val: string, prefixes: seq<string>): Block {
    if prefixes == [] then rad
    else if key == prefixes[0] + " avg query time(5m/1m)" then
      var parts := Split(Strip(WithoutMs(val)), '/');
      if |parts| == 2 then
        SetField(SetField(rad, prefixes[0] + "_avg_query_time_5m", parts[0]), prefixes[0] + "_avg_query_time_1m", parts[1])
      else rad
    else WithAverage(rad, key, val, prefixes[1..])
  }

  /** `_parse_radius_line` */
  function WithRadius(rad: Block, key: string, val: string): Block {
    if key == "state" then rad["state" := TextOf(val)]
    else if key in RADIUS_KEYS then SetField(rad, RADIUS_KEYS[key], val)
    else WithAverage(WithLost(rad, key, val, PREFIXES), key, val, PREFIXES)
  }

  /** The parser's variables; `failed` once a header has raised. */
  datatype Progress = Progress(e: Extended, section: Option<string>, current: Option<Block>, failed: bool)

  function Flush(p: Progress): Progress {
    if p.current.Some? then p.(e := p.e.(radius := p.e.radius + [p.current.value]), current := None) else p
  }

  function AfterTop(p: Progress, s: string): Progress {
    var f := Flush(p);
    if "uptime:" <= s || "cpu:" <= s then f.(e := f.e.(basic := WithUptime(f.e.basic, s)), section := None)
    else if "mem(rss/virt):" <= s then f.(e := WithMemory(f.e, s), section := None)
    else if "radius(" <= s then
      match RadiusHeader(s)
      case None => f.(failed := true)
      case Some(rad) => f.(current := Some(rad), section := Some("radius"))
    else f.(section := SectionOf(s))
  }

  function AfterIndented(p: Progress, s: string): Progress {
    if ':' !in s then p
    else
      var key, val := KeyPart(s), AfterColon(s);
      if p.section == Some("core") then p.(e := p.e.(core := SetNumber(p.e.core, key, val)))
      else if p.section == Some(SESSIONS) then p.(e := p.e.(basic := WithSession(p.e.basic, key, val)))
      else if p.section == Some("pppoe") then p.(e := p.e.(pppoe := WithPppoe(p.e.pppoe, key, val)))
      else if p.section == Some("radius") && p.current.Some? then p.(current := Some(WithRadius(p.current.value, key, val)))
      else p
  }

  function ScanExtended(lines: seq<string>, p: Progress): Progress {
    if p.failed then p
    else if lines == [] then Flush(p)
    else if Blank(lines[0]) then ScanExtended(lines[1..], p)
    else if TopLevel(lines[0]) then ScanExtended(lines[1..], AfterTop(p, Strip(lines[0])))
    else ScanExtended(lines[1..], AfterIndented(p, Strip(lines[0])))
  }

  const START := Progress(Extended(NO_STAT, 0, 0, map[], map[], []), None, None, false)

  lemma IndentedNeverFails(p: Progress, s: string)
    ensures AfterIndented(p, s).failed == p.failed
  {
  }

  // ---------------------------------------------------------------------------
  // Agreement
  // ---------------------------------------------------------------------------

  lemma {:induction false} TrimEndFirst(s: string, c: char)
    requires s != "" && s[0] != c
    ensures TrimEnd(s, c) != "" && TrimEnd(s, c)[0] == s[0]
  {
    if s[|s| - 1] == c {
      TrimEndFirst(s[..|s| - 1], c);
    }
  }

  /** The special lines of the extended parser never open the sessions section. */
  lemma SpecialIsNotSessions(s: string)
    requires "uptime:" <= s || "cpu:" <= s || "mem(rss/virt):" <= s || "radius(" <= s
    ensures SectionOf(s) != Some(SESSIONS)
  {
    assert "uptime:"[0] == 'u' && "cpu:"[0] == 'c' && "mem(rss/virt):"[0] == 'm' && "radius("[0] == 'r';
    assert s[0] in {'u', 'c', 'm', 'r'};
    TrimEndFirst(s, ':');
    assert SESSIONS[0] == 's';
  }

  lemma TopAgrees(p: Progress, s: string)
    ensures var q := AfterTop(p, s);
            !q.failed ==>
              q.e.basic == WithUptime(p.e.basic, s) && (q.section == Some(SESSIONS) <==> SectionOf(s) == Some(SESSIONS))
  {
    hide SectionOf, RadiusHeader, WithMemory, AfterColon, TrimEnd;
    MemoryKeepsBasic(Flush(p).e, s);
    assert "radius"[0] == 'r' && SESSIONS[0] == 's';
    if "uptime:" <= s || "cpu:" <= s || "mem(rss/virt):" <= s || "radius(" <= s {
      SpecialIsNotSessions(s);
      NotUptime(s);
    }
  }

  lemma MemoryKeepsBasic(e: Extended, s: string)
    ensures WithMemory(e, s).basic == e.basic && WithMemory(e, s).radius == e.radius
  {
  }

  lemma NotUptime(s: string)
    ensures "mem(rss/virt):" <= s || "radius(" <= s ==> !("uptime:" <= s) && !("cpu:" <= s)
  {
    assert "uptime:"[0] == 'u' && "cpu:"[0] == 'c' && "mem(rss/virt):"[0] == 'm' && "radius("[0] == 'r';
  }

  lemma Failed(lines: seq<string>, p: Progress)
    requires p.failed
    ensures ScanExtended(lines, p) == p
  {
  }

  lemma {:induction false} AgreeFrom(lines: seq<string>, p: Progress, section: Option<string>)
    requires p.section == Some(SESSIONS) <==> section == Some(SESSIONS)
    requires !ScanExtended(lines, p).failed
    ensures ScanExtended(lines, p).e.basic == ScanBasic(lines, section, p.e.basic)
  {
    hide Strip, Blank, TopLevel, AfterTop, AfterIndented, SectionOf, WithUptime, WithSession, KeyPart, AfterColon;
    if lines != [] && !Blank(lines[0]) {
      var s := Strip(lines[0]);
      if TopLevel(lines[0]) {
        TopAgrees(p, s);
        AgreeFrom(lines[1..], AfterTop(p, s), SectionOf(s));
      } else {
        IndentedAgrees(p, s);
        AgreeFrom(lines[1..], AfterIndented(p, s), section);
      }
    } else if lines != [] {
      AgreeFrom(lines[1..], p, section);
    }
  }

  lemma IndentedAgrees(p: Progress, s: string)
    ensures var q := AfterIndented(p, s);
            && q.section == p.section && q.failed == p.failed
            && q.e.basic == (if p.section == Some(SESSIONS) && ':' in s then WithSession(p.e.basic, KeyPart(s), AfterColon(s)) else p.e.basic)
  {
    hide WithSession, WithPppoe, WithRadius, SetNumber, KeyPart, AfterColon;
    assert "core"[0] == 'c' && SESSIONS[0] == 's';
  }

  /** Whenever the extended parser returns, its uptime, cpu and sessions are those of the
      short parser. */
  lemma ParsersAgree(lines: seq<string>)
    requires !ScanExtended(lines, START).failed
    ensures ScanExtended(lines, START).e.basic == ScanBasic(lines, None, NO_STAT)
  {
    AgreeFrom(lines, START, None);
  }

  // ---------------------------------------------------------------------------
  // RADIUS blocks
  // ---------------------------------------------------------------------------

  predicate OpensRadius(raw: string) {
    !Blank(raw) && TopLevel(raw) && "radius(" <= Strip(raw)
  }

  predicate EndsBlock(raw: string) {
    !Blank(raw) && TopLevel(raw)
  }

  /** The lines up to the next one that is not indented. */
  function Following(lines: seq<string>): seq<string> {
    if lines == [] || EndsBlock(lines[0]) then [] else [lines[0]] + Following(lines[1..])
  }

  function Feed(rad: Block, lines: seq<string>): Block
    decreases |lines|
  {
    if lines == [] then rad
    else
      var s := Strip(lines[0]);
      Feed(if !Blank(lines[0]) && ':' in s then WithRadius(rad, KeyPart(s), AfterColon(s)) else rad, lines[1..])
  }

  /** One block for each line `radius(...` that is not indented, in order, fed by the
      indented lines before the next line that is not. */
  function RadiusBlocks(lines: seq<string>): seq<Block> {
    if lines == [] then []
    else
      (if OpensRadius(lines[0]) && RadiusHeader(Strip(lines[0])).Some? then
         [Feed(RadiusHeader(Strip(lines[0])).value, Following(lines[1..]))]
       else [])
      + RadiusBlocks(lines[1..])
  }

  predicate HeadersClosed(lines: seq<string>) {
    forall i :: 0 <= i < |lines| && OpensRadius(lines[i]) ==> RadiusHeader(Strip(lines[i])).Some?
  }

  lemma HeadersClosedStep(lines: seq<string>)
    requires lines != []
    ensures HeadersClosed(lines) <==>
            (OpensRadius(lines[0]) ==> RadiusHeader(Strip(lines[0])).Some?) && HeadersClosed(lines[1..])
  {
    hide OpensRadius, RadiusHeader, Strip;
    assert forall i :: 1 <= i < |lines| ==> lines[i] == lines[1..][i - 1];
    assert forall i :: 0 <= i < |lines[1..]| ==> lines[1..][i] == lines[i + 1];
  }

  lemma TopRadius(p: Progress, s: string)
    requires !p.failed
    ensures var q := AfterTop(p, s);
            && q.failed == ("radius(" <= s && RadiusHeader(s).None?)
            && q.e.radius == p.e.radius + (if p.current.Some? then [p.current.value] else [])
            && (!q.failed ==> q.current == if "radius(" <= s then RadiusHeader(s) else None)
            && (!q.failed && "radius(" <= s ==> q.section == Some("radius"))
  {
    hide SectionOf, RadiusHeader, WithMemory, AfterColon, TrimEnd;
    MemoryKeepsBasic(Flush(p).e, s);
    NotUptime(s);
    assert "mem(rss/virt):"[0] == 'm' && "radius("[0] == 'r';
    assert p.e.radius + [] == p.e.radius;
  }

  lemma IndentedRadius(p: Progress, s: string)
    requires p.current.Some? ==> p.section == Some("radius")
    ensures var q := AfterIndented(p, s);
            && q.failed == p.failed && q.e.radius == p.e.radius && q.section == p.section
            && q.current == if p.current.Some? && ':' in s then Some(WithRadius(p.current.value, KeyPart(s), AfterColon(s))) else p.current
  {
    hide WithSession, WithPppoe, WithRadius, SetNumber, KeyPart, AfterColon;
    assert "core"[0] == 'c' && SESSIONS[0] == 's' && "pppoe"[0] == 'p' && "radius"[0] == 'r';
  }

  lemma {:induction false} RadiusFrom(lines: seq<string>, p: Progress)
    requires !p.failed && (p.current.Some? ==> p.section == Some("radius"))
    ensures !ScanExtended(lines, p).failed <==> HeadersClosed(lines)
    ensures HeadersClosed(lines) ==>
              ScanExtended(lines, p).e.radius ==
              p.e.radius + (if p.current.Some? then [Feed(p.current.value, Following(lines))] else []) + RadiusBlocks(lines)
  {
    hide Strip, Blank, TopLevel, AfterTop, AfterIndented, WithRadius, KeyPart, AfterColon, RadiusHeader, HeadersClosed;
    if lines == [] {
      NoHeadersLeft();
      assert p.e.radius + [] + [] == p.e.radius;
    } else {
      HeadersClosedStep(lines);
      var raw, rest, s := lines[0], lines[1..], Strip(lines[0]);
      if EndsBlock(raw) {
        TopRadius(p, s);
        var q := AfterTop(p, s);
        if q.failed {
          Failed(rest, q);
        } else {
          RadiusFrom(rest, q);
          assert Following(lines) == [];
          RadiusAppend(p, q, lines);
        }
      } else {
        var q := if Blank(raw) then p else AfterIndented(p, s);
        IndentedRadius(p, s);
        RadiusFrom(rest, q);
        assert Following(lines)[1..] == Following(rest);
        assert [] + RadiusBlocks(rest) == RadiusBlocks(rest);
      }
    }
  }

  lemma NoHeadersLeft()
    ensures HeadersClosed([])
  {
  }

  /** Flushing the block in progress and starting the next one. */
  lemma RadiusAppend(p: Progress, q: Progress, lines: seq<string>)
    requires lines != [] && EndsBlock(lines[0])
    requires q.e.radius == p.e.radius + (if p.current.Some? then [p.current.value] else [])
    requires q.current == if "radius(" <= Strip(lines[0]) then RadiusHeader(Strip(lines[0])) else None
    ensures q.e.radius + (if q.current.Some? then [Feed(q.current.value, Following(lines[1..]))] else []) + RadiusBlocks(lines[1..])
            == p.e.radius + (if p.current.Some? then [Feed(p.current.value, [])] else []) + RadiusBlocks(lines)
  {
    hide Strip, Blank, TopLevel, RadiusHeader, Following, WithRadius;
    var here := if q.current.Some? then [Feed(q.current.value, Following(lines[1..]))] else [];
    assert RadiusBlocks(lines) == here + RadiusBlocks(lines[1..]);
    assert q.e.radius + here + RadiusBlocks(lines[1..]) == q.e.radius + (here + RadiusBlocks(lines[1..]));
  }

  /** The extended parser returns exactly if every `radius(` header is closed, and then lists
      one block per header, each fed only by its own indented lines. */
  lemma RadiusListed(lines: seq<string>)
    ensures !ScanExtended(lines, START).failed <==> HeadersClosed(lines)
    ensures HeadersClosed(lines) ==> ScanExtended(lines, START).e.radius == RadiusBlocks(lines)
  {
    RadiusFrom(lines, START);
    assert [] + [] + RadiusBlocks(lines) == RadiusBlocks(lines);
  }
}
