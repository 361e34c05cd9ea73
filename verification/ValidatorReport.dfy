/** The validator's report, issue by issue: which issues there are, in which order, and what
    each says. */
module ValidatorReport {
  import opened Text
  import opened Ipv4
  import opened Validator
  import opened ValidatorMeaning

  // ---------------------------------------------------------------------------
  // Lines
  // ---------------------------------------------------------------------------

  /** A section header is a text without closing brackets, in brackets. */
  lemma SectionNameIff(line: string, name: string)
    ensures SectionName(line) == Some(name) <==> name != "" && ']' !in name && line == ['['] + name + [']']
  {
    if SectionName(line).Some? {
      assert line == [line[0]] + line[1..|line| - 1] + [line[|line| - 1]];
    }
    if line == ['['] + name + [']'] {
      assert line[1..|line| - 1] == name;
    }
  }

  /** A line is a header, a content line, or skipped: blank or a comment. */
  lemma KindsOfLine(raw: string, name: string)
    ensures Header(raw) == Some(name) <==> name != "" && ']' !in name && Strip(raw) == ['['] + name + [']']
    ensures Plain(raw) <==> Strip(raw) != "" && Strip(raw)[0] != '#' && Header(raw).None?
  {
    hide Strip;
    SectionNameIff(Strip(raw), name);
  }

  /** `key = value`: letters, digits, underscores and hyphens, blanks, an equals sign and the
      value, which is trimmed. */
  ghost predicate SettingText(line: string, s: Setting) {
    s.key != ""
    && (forall c :: c in s.key ==> 'a' <= c <= 'z' || 'A' <= c <= 'Z' || '0' <= c <= '9' || c == '_' || c == '-')
    && exists blanks, rest ::
         (forall c :: c in blanks ==> IsSpace(c)) && line == s.key + (blanks + (['='] + rest)) && s.value == Strip(rest)
  }

  lemma KeyEndIs(line: string, n: nat)
    requires n <= |line| && (forall i :: 0 <= i < n ==> IsKeyChar(line[i])) && (n < |line| ==> !IsKeyChar(line[n]))
    ensures KeyEnd(line, 0) == n
  {
  }

  lemma BlanksThen(t: string, blanks: string, rest: string)
    requires t == blanks + rest && (forall c :: c in blanks ==> IsSpace(c)) && (rest != "" ==> !IsSpace(rest[0]))
    ensures LStrip(t) == rest
  {
    assert forall i :: 0 <= i < |blanks| ==> t[i] == blanks[i] && blanks[i] in blanks;
    assert rest != "" ==> t[|blanks|] == rest[0];
    assert FirstVisible(t, 0) == |blanks|;
  }

  lemma KeyIsSetting(line: string)
    requires KeyValue(line).Some?
    ensures SettingText(line, KeyValue(line).value)
  {
    hide Strip;
    var n := KeyEnd(line, 0);
    var t := line[n..];
    var f := FirstVisible(t, 0);
    assert line == line[..n] + (t[..f] + (['='] + t[f + 1..]));
    assert forall c :: c in line[..n] ==> IsKeyChar(c);
    assert forall c :: c in t[..f] ==> IsSpace(c);
    assert LStrip(t)[1..] == t[f + 1..];
  }

  lemma SettingIsKey(line: string, s: Setting)
    requires SettingText(line, s)
    ensures KeyValue(line) == Some(s)
  {
    hide Strip, LStrip, KeyEnd;
    var blanks, rest :|
      (forall c :: c in blanks ==> IsSpace(c)) && line == s.key + (blanks + (['='] + rest)) && s.value == Strip(rest);
    var n, t := |s.key|, blanks + (['='] + rest);
    assert forall i :: 0 <= i < n ==> line[i] == s.key[i] && s.key[i] in s.key;
    assert line[n] == t[0] && t[0] == (if blanks == "" then '=' else blanks[0]);
    assert blanks != "" ==> blanks[0] in blanks;
    KeyEndIs(line, n);
    assert line[n..] == t && line[..n] == s.key;
    BlanksThen(t, blanks, ['='] + rest);
    assert (['='] + rest)[1..] == rest;
  }

  lemma KeyValueIff(line: string, s: Setting)
    ensures KeyValue(line) == Some(s) <==> SettingText(line, s)
  {
    hide KeyValue, SettingText;
    if KeyValue(line) == Some(s) {
      KeyIsSetting(line);
    }
    if SettingText(line, s) {
      SettingIsKey(line, s);
    }
  }

  // ---------------------------------------------------------------------------
  // Faults of a setting
  // ---------------------------------------------------------------------------

  /** The form of an address: four runs of one to three digits between dots. */
  ghost predicate AddressForm(s: string) {
    exists parts :: |parts| == 4 && s == Joined(parts, '.') && forall p :: p in parts ==> 1 <= |p| <= 3 && AllDigits(p)
  }

  /** The form of a network: that of an address, a slash and one or two digits. */
  ghost predicate NetworkForm(s: string) {
    exists host, prefix :: s == host + ['/'] + prefix && AddressForm(host) && 1 <= |prefix| <= 2 && AllDigits(prefix)
  }

  lemma AddressShapedIff(s: string)
    ensures AddressShaped(s) <==> AddressForm(s)
  {
    hide Split, Joined, AllDigits;
    var pieces := Split(s, '.');
    SplitMeaning(s, '.', pieces);
    if parts :| |parts| == 4 && s == Joined(parts, '.') && forall p :: p in parts ==> 1 <= |p| <= 3 && AllDigits(p) {
      forall p | p in parts
        ensures '.' !in p
      {
        NoDotInDigits(p);
      }
      SplitMeaning(s, '.', parts);
    }
  }

  lemma NoDotInDigits(p: string)
    requires AllDigits(p)
    ensures '.' !in p && '/' !in p
  {
  }

  lemma CidrShapedIff(s: string)
    ensures CidrShaped(s) <==> NetworkForm(s)
  {
    hide Split, AllDigits, AddressShaped, AddressForm;
    var parts := Split(s, '/');
    JoinedSplit(s, '/');
    if |parts| == 2 {
      AddressShapedIff(parts[0]);
      assert parts[1..] == [parts[1]];
      assert s == parts[0] + ['/'] + parts[1];
    }
    if host, prefix :| s == host + ['/'] + prefix && AddressForm(host) && 1 <= |prefix| <= 2 && AllDigits(prefix) {
      AddressShapedIff(host);
      AddressChars(host);
      NoDotInDigits(prefix);
      SplitCons(host, '/', prefix);
      SplitOne(prefix, '/');
      assert [host] + [prefix] == [host, prefix];
    }
  }

  /** A run of digits whose number is no port. */
  predicate BadNumber(s: string, n: nat) {
    s != "" && AllDigits(s) && n == ParseNat(s) && (n < 1 || n > 65535)
  }

  /** A sub-setting of a port key with a number that is no port. */
  predicate BadSubPort(part: string, key: string, n: nat) {
    var sub := Strip(part);
    HasEq(sub) && key == Strip(sub[..Find(sub, '=')]) && key in {"tcp", "auth-port", "acct-port", "port", "cli-port"}
    && BadNumber(Strip(sub[Find(sub, '=') + 1..]), n)
  }

  /** What is wrong with a setting: a value in the form of a network that is none, a host part
      in the form of an address that is none, a port key whose last piece is no port, or under
      another key a sub-setting with such a port. */
  predicate WrongWith(s: Setting, p: Problem) {
    match p
    case BadCidr(key, value) => key == s.key && value == s.value && CidrShaped(value) && !IsNetwork(value)
    case BadAddress(key, host) => key == s.key && host == HostPart(s.value) && AddressShaped(host) && !IsAddress(host)
    case BadPort(key, n) =>
      if s.key in {"tcp", "auth-port", "acct-port", "port", "cli-port"} then key == s.key && BadNumber(AfterLast(s.value, ':'), n)
      else ',' in s.value && exists part :: part in Split(s.value, ',') && BadSubPort(part, key, n)
    case _ => false
  }

  lemma IpProblemIff(s: Setting, p: Problem)
    ensures p in IpProblems(s.key, s.value) <==> !p.BadPort? && WrongWith(s, p)
  {
    hide AddressShaped, CidrShaped, ParseAddress, ParseNetwork, IsAddress, IsNetwork, Split, Strip, BadNumber, BadSubPort;
    var value := s.value;
    NetworkIff(value);
    AddressIff(HostPart(value));
    FirstPart(value, ',');
    FirstPart(value, ':');
    if AddressShaped(value) {
      AddressChars(value);
    }
    if CidrShaped(value) {
      CidrChars(value);
      CidrIsNoAddress(value);
    }
    if ',' !in value && ':' !in value {
      SplitOne(value, ':');
    }
  }

  lemma CidrIsNoAddress(value: string)
    requires CidrShaped(value)
    ensures !AddressShaped(HostPart(value))
  {
    hide AddressShaped, Split, Strip;
    CidrChars(value);
    SplitOne(value, ':');
    assert HostPart(value) == value;
    if AddressShaped(value) {
      AddressChars(value);
    }
  }

  lemma SubPortOne(part: string, p: Problem)
    ensures p in SubPortProblem(part) <==> p.BadPort? && BadSubPort(part, p.key, p.port)
  {
    hide Strip, AllDigits, ParseNat;
  }

  lemma {:induction false} SubPortIn(parts: seq<string>, p: Problem)
    ensures p in SubPortProblems(parts) <==> p.BadPort? && exists part :: part in parts && BadSubPort(part, p.key, p.port)
  {
    hide SubPortProblem, BadSubPort;
    if parts != [] {
      SubPortIn(parts[1..], p);
      SubPortOne(parts[0], p);
      assert forall part :: part in parts <==> part == parts[0] || part in parts[1..];
    }
  }

  lemma PortProblemIs(s: Setting, p: Problem)
    ensures p in PortProblems(s.key, s.value) <==> p.BadPort? && WrongWith(s, p)
  {
    hide Split, SubPortProblems, AfterLast, BadSubPort, AllDigits;
    SubPortIn(Split(s.value, ','), p);
  }

  // ---------------------------------------------------------------------------
  // Issues
  // ---------------------------------------------------------------------------

  /** The section line `k` is in: the latest header before it, or none. */
  ghost predicate SectionAt(lines: seq<string>, k: int, section: string)
    requires 0 <= k <= |lines|
  {
    || (section == "" && forall h :: 0 <= h < k ==> Header(lines[h]).None?)
    || exists h :: 0 <= h < k && Header(lines[h]) == Some(section) && forall j :: h < j < k ==> Header(lines[j]).None?
  }

  /** A text of at most sixty characters, or its first sixty and three dots. */
  predicate Shortened(text: string, t: string) {
    if |text| <= 60 then t == text else t == text[..60] + "..."
  }

  /** What is said of a content line: before any header it is an orphan; a setting without a
      value is noted, and the faults of any other are told; any other text is a warning, but
      not in the two sections of bare names. */
  ghost predicate SaidOf(line: string, section: string, severity: Severity, problem: Problem) {
    || (section == "" && severity == Fault && problem.OrphanLine? && Shortened(line, problem.text))
    || (section != ""
        && exists s :: SettingText(line, s)
                       && if s.value == "" then severity == Info && problem == EmptyValue(s.key)
                          else severity == Fault && WrongWith(s, problem))
    || (section != "" && section != "modules" && section != "ip-pool" && (forall s :: !SettingText(line, s))
        && severity == Warning && problem.NoSeparator? && Shortened(line, problem.text))
  }

  /** Content line `k` is the reason for the issue. */
  ghost predicate IssueAt(lines: seq<string>, k: int, issue: Issue) {
    && 0 <= k < |lines| && Plain(lines[k]) && issue.line == k + 1 && SectionAt(lines, k, issue.section)
    && SaidOf(Strip(lines[k]), issue.section, issue.severity, issue.problem)
  }

  lemma {:induction false} InFaults(problems: seq<Problem>, lineno: nat, section: string, issue: Issue)
    ensures issue in Faults(problems, lineno, section) <==>
            issue.severity == Fault && issue.line == lineno && issue.section == section && issue.problem in problems
  {
    if problems != [] {
      InFaults(problems[1..], lineno, section, issue);
      assert forall p :: p in problems <==> p == problems[0] || p in problems[1..];
    }
  }

  lemma LineIssueIff(line: string, lineno: nat, section: string, issue: Issue)
    ensures issue in LineIssues(line, lineno, section) <==>
            issue.line == lineno && issue.section == section && SaidOf(line, section, issue.severity, issue.problem)
  {
    hide KeyValue, IpProblems, PortProblems, Faults, SettingText, WrongWith;
    forall s
      ensures KeyValue(line) == Some(s) <==> SettingText(line, s)
    {
      KeyValueIff(line, s);
    }
    if KeyValue(line).Some? {
      var s := KeyValue(line).value;
      InFaults(IpProblems(s.key, s.value), lineno, section, issue);
      InFaults(PortProblems(s.key, s.value), lineno, section, issue);
      IpProblemIff(s, issue.problem);
      PortProblemIs(s, issue.problem);
    }
  }

  lemma HeaderHasName(raw: string)
    ensures Header(raw) != Some("")
  {
    hide Strip;
  }

  lemma SectionStep(lines: seq<string>, k: int, section: string)
    requires 0 <= k < |lines| && SectionAt(lines, k, section)
    ensures SectionAt(lines, k + 1, SectionAfter(lines[k], section))
  {
    hide Header;
    if Header(lines[k]).Some? {
      assert 0 <= k < k + 1 && Header(lines[k]) == Some(SectionAfter(lines[k], section));
    } else if h :| 0 <= h < k && Header(lines[h]) == Some(section) && forall j :: h < j < k ==> Header(lines[j]).None? {
      assert 0 <= h < k + 1;
    }
  }

  lemma OneSection(lines: seq<string>, k: int, a: string, b: string)
    requires 0 <= k <= |lines| && SectionAt(lines, k, a) && SectionAt(lines, k, b)
    ensures a == b
  {
    hide Header;
    forall h | 0 <= h < k
      ensures Header(lines[h]) != Some("")
    {
      HeaderHasName(lines[h]);
    }
  }

  lemma {:induction false} ScanIn(lines: seq<string>, k: nat, section: string, issue: Issue)
    requires k <= |lines| && SectionAt(lines, k, section)
    ensures issue in ScanIssues(lines[k..], k + 1, section) <==> exists j :: k <= j && IssueAt(lines, j, issue)
    decreases |lines| - k
  {
    hide ContentLine, Header, LineIssues, SectionAt, SaidOf, Strip;
    if k < |lines| {
      ScanStep(lines, k, k + 1, section);
      SectionStep(lines, k, section);
      ScanIn(lines, k + 1, SectionAfter(lines[k], section), issue);
      LineIssueIff(Strip(lines[k]), k + 1, section, issue);
      if IssueAt(lines, k, issue) {
        OneSection(lines, k, section, issue.section);
      }
      if Plain(lines[k]) && issue in LineIssues(Strip(lines[k]), k + 1, section) {
        assert IssueAt(lines, k, issue);
      }
    }
  }

  /** Line numbers from `lineno` on, never decreasing. */
  predicate Ascending(issues: seq<Issue>, lineno: nat) {
    && (forall i :: 0 <= i < |issues| ==> issues[i].line >= lineno)
    && forall i, j :: 0 <= i < j < |issues| ==> issues[i].line <= issues[j].line
  }

  lemma AscendingAppend(here: seq<Issue>, rest: seq<Issue>, lineno: nat)
    requires (forall i :: 0 <= i < |here| ==> here[i].line == lineno) && Ascending(rest, lineno + 1)
    ensures Ascending(here + rest, lineno)
  {
    var all := here + rest;
    assert forall i :: 0 <= i < |here| ==> all[i] == here[i];
    assert forall i :: |here| <= i < |all| ==> all[i] == rest[i - |here|];
  }

  lemma {:induction false} ScanOrdered(lines: seq<string>, lineno: nat, section: string)
    ensures Ascending(ScanIssues(lines, lineno, section), lineno)
  {
    hide ContentLine, Header, LineIssues, SectionAfter, Strip;
    if lines != [] {
      var here :=
        if ContentLine(lines[0]) && Header(lines[0]).None? then LineIssues(Strip(lines[0]), lineno, section) else [];
      ScanOrdered(lines[1..], lineno + 1, SectionAfter(lines[0], section));
      forall i | 0 <= i < |here|
        ensures here[i].line == lineno
      {
        assert here[i] in here;
        LineIssueIff(Strip(lines[0]), lineno, section, here[i]);
      }
      AscendingAppend(here, ScanIssues(lines[1..], lineno + 1, SectionAfter(lines[0], section)), lineno);
    }
  }

  /** Exactly these issues: what is said of the content lines, the missing `modules` section,
      and each section with several headers. */
  lemma IssueIff(lines: seq<string>, issue: Issue)
    ensures issue in Validation(lines).issues <==>
            || (exists k :: 0 <= k && IssueAt(lines, k, issue))
            || (issue == Issue(Fault, 0, "", SectionMissing("modules")) && !Declares(lines, "modules"))
            || (exists n :: multiset(HeaderNames(lines))[n] > 1
                            && issue == Issue(Warning, 0, n, SectionRepeated(n, multiset(HeaderNames(lines))[n])))
  {
    hide ScanIssues, HeaderNames, Dedup, Sort, RepeatIssues, Count, IssueAt, Declares, Header;
    var names := HeaderNames(lines);
    var order := Sort(Dedup(names));
    NoSection(lines);
    assert lines[0..] == lines;
    ScanIn(lines, 0, "", issue);
    NamesDeclared(lines, "modules");
    RepeatIssuesAre(order, names, issue);
    assert forall n :: n in order <==> n in names;
    assert forall n :: multiset(names)[n] > 1 ==> n in names;
  }

  lemma NoSection(lines: seq<string>)
    ensures SectionAt(lines, 0, "")
  {
  }

  lemma CountOf(issues: seq<Issue>, x: Issue, severity: Severity)
    ensures Count([], severity) == 0
    ensures Count(issues + [x], severity) == Count(issues, severity) + if x.severity == severity then 1 else 0
  {
    CountAppend(issues, [x], severity);
    assert [x][1..] == [];
  }

  /** The issues of the lines come first, in the order of the lines; errors and warnings are
      counted, and the text is valid exactly without errors. */
  lemma ReportMeaning(lines: seq<string>)
    ensures var r := Validation(lines);
            && r.errors == Count(r.issues, Fault) && r.warnings == Count(r.issues, Warning) && (r.valid <==> r.errors == 0)
            && exists n :: 0 <= n <= |r.issues| && Ascending(r.issues[..n], 1)
                           && forall i :: n <= i < |r.issues| ==> r.issues[i].line == 0
  {
    hide ScanIssues, HeaderNames, Dedup, Sort, RepeatIssues, Count, Ascending;
    var r, scan := Validation(lines), ScanIssues(lines, 1, "");
    ScanOrdered(lines, 1, "");
    var names := HeaderNames(lines);
    var required, repeats := RequiredIssues(names), RepeatIssues(Sort(Dedup(names)), names);
    var later := required + repeats;
    assert r.issues == scan + later;
    forall i | |scan| <= i < |r.issues|
      ensures r.issues[i].line == 0
    {
      var issue := r.issues[i];
      assert issue == later[i - |scan|] && later[i - |scan|] in later;
      assert issue in required || issue in repeats;
      RepeatIssuesAre(Sort(Dedup(names)), names, issue);
    }
    assert r.issues[..|scan|] == scan;
  }
}
