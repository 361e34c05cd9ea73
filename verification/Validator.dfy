/** The configuration validator: what it reports, and what "valid" means. */
module Validator {
  import opened Text
  import opened Ipv4

  datatype Severity = Fault | Warning | Info

  /** What an issue says; the source formats it as a message. */
  datatype Problem =
    | OrphanLine(text: string)
    | EmptyValue(key: string)
    | BadCidr(key: string, value: string)
    | BadAddress(key: string, value: string)
    | BadPort(key: string, port: nat)
    | NoSeparator(text: string)
    | SectionMissing(name: string)
    | SectionRepeated(name: string, count: nat)

  datatype Issue = Issue(severity: Severity, line: nat, section: string, problem: Problem)

  datatype Report = Report(valid: bool, errors: nat, warnings: nat, sections: seq<string>, issues: seq<Issue>)

  const PORT_KEYS := {"tcp", "auth-port", "acct-port", "port", "cli-port"}
  const BARE_SECTIONS := {"modules", "ip-pool"}

  // ---------------------------------------------------------------------------
  // Lines
  // ---------------------------------------------------------------------------

  /** Neither blank nor a comment. */
  predicate ContentLine(raw: string) {
    var line := Strip(raw);
    line != "" && line[0] != '#'
  }

  /** The pattern `^\[([^\]]+)\]$`. */
  function SectionName(line: string): (r: Option<string>)
    ensures r.Some? ==> r.value != "" && line != "" && line[0] == '['
  {
    if |line| >= 3 && line[0] == '[' && line[|line| - 1] == ']' && ']' !in line[1..|line| - 1] then
      Some(line[1..|line| - 1])
    else None
  }

  function Header(raw: string): Option<string> {
    if ContentLine(raw) then SectionName(Strip(raw)) else None
  }

  predicate IsKeyChar(c: char) {
    'a' <= c <= 'z' || 'A' <= c <= 'Z' || '0' <= c <= '9' || c == '_' || c == '-'
  }

  function KeyEnd(s: string, from: nat): (n: nat)
    requires from <= |s|
    ensures from <= n <= |s|
    ensures forall i :: from <= i < n ==> IsKeyChar(s[i])
    ensures n < |s| ==> !IsKeyChar(s[n])
    decreases |s| - from
  {
    if from < |s| && IsKeyChar(s[from]) then KeyEnd(s, from + 1) else from
  }

  datatype Setting = Setting(key: string, value: string)

  /** The pattern `^([a-zA-Z0-9_-]+)\s*=\s*(.*)$`, the value trimmed. */
  function KeyValue(line: string): Option<Setting> {
    var n := KeyEnd(line, 0);
    var rest := LStrip(line[n..]);
    if n > 0 && rest != "" && rest[0] == '=' then Some(Setting(line[..n], Strip(rest[1..]))) else None
  }

  // ---------------------------------------------------------------------------
  // The IP and port rules
  // ---------------------------------------------------------------------------

  predicate ShortDigits(s: string, max: nat) {
    0 < |s| <= max && AllDigits(s)
  }

  predicate AddressShaped(s: string) {
    var parts := Split(s, '.');
    |parts| == 4 && forall p :: p in parts ==> ShortDigits(p, 3)
  }

  predicate CidrShaped(s: string) {
    var parts := Split(s, '/');
    |parts| == 2 && AddressShaped(parts[0]) && ShortDigits(parts[1], 2)
  }

  /** The part of a value that may be an address: what comes before the first comma, trimmed,
      or else before the first colon. */
  function HostPart(value: string): string {
    if ',' in value then Strip(value[..Find(value, ',')]) else value[..Find(value, ':')]
  }

  /** What looks like a network or an address is one. */
  predicate AddressRule(value: string) {
    && (CidrShaped(value) ==> IsNetwork(value))
    && (AddressShaped(HostPart(value)) ==> IsAddress(HostPart(value)))
  }

  /** What looks like a number is a port. */
  predicate PortOk(s: string) {
    s != "" && AllDigits(s) ==> 1 <= ParseNat(s) <= 65535
  }

  /** A sub-setting such as `auth-port=1812`. */
  predicate SubPortOk(part: string) {
    var sub := Strip(part);
    HasEq(sub) && Strip(sub[..Find(sub, '=')]) in PORT_KEYS ==> PortOk(Strip(sub[Find(sub, '=') + 1..]))
  }

  /** A port key has a port after its last colon; otherwise the sub-settings between the
      commas are held to it. */
  predicate PortRule(key: string, value: string) {
    if key in PORT_KEYS then PortOk(AfterLast(value, ':'))
    else ',' in value ==> forall part :: part in Split(value, ',') ==> SubPortOk(part)
  }

  /** The setting passes the IP and port rules. */
  predicate Passes(s: Setting) {
    AddressRule(s.value) && PortRule(s.key, s.value)
  }

  function AddressProblem(key: string, s: string): seq<Problem> {
    if AddressShaped(s) && ParseAddress(s).None? then [BadAddress(key, s)] else []
  }

  function IpProblems(key: string, value: string): seq<Problem> {
    if CidrShaped(value) then
      if ParseNetwork(value).None? then [BadCidr(key, value)] else []
    else if AddressShaped(value) then AddressProblem(key, value)
    else
      (if ',' in value then AddressProblem(key, Strip(Split(value, ',')[0])) else [])
      + (if ':' in value && ',' !in value then AddressProblem(key, Split(value, ':')[0]) else [])
  }

  function PortProblem(key: string, s: string): seq<Problem> {
    if s != "" && AllDigits(s) && (ParseNat(s) < 1 || ParseNat(s) > 65535) then [BadPort(key, ParseNat(s))] else []
  }

  function SubPortProblem(part: string): seq<Problem> {
    var sub := Strip(part);
    var e := Find(sub, '=');
    if e < |sub| && Strip(sub[..e]) in PORT_KEYS then PortProblem(Strip(sub[..e]), Strip(sub[e + 1..])) else []
  }

  function SubPortProblems(parts: seq<string>): seq<Problem> {
    if parts == [] then [] else SubPortProblem(parts[0]) + SubPortProblems(parts[1..])
  }

  function PortProblems(key: string, value: string): seq<Problem> {
    if key in PORT_KEYS then PortProblem(key, AfterLast(value, ':'))
    else if ',' in value then SubPortProblems(Split(value, ','))
    else []
  }

  // ---------------------------------------------------------------------------
  // The checks report a problem exactly if a rule is broken
  // ---------------------------------------------------------------------------

  lemma AddressChars(s: string)
    requires AddressShaped(s)
    ensures forall x :: x in s ==> IsDigit(x) || x == '.'
  {
    hide Split;
    forall x | x in s && x != '.'
      ensures IsDigit(x)
    {
      SplitChars(s, '.', x);
      var p :| p in Split(s, '.') && x in p;
      assert ShortDigits(p, 3);
    }
  }

  lemma CidrChars(s: string)
    requires CidrShaped(s)
    ensures '/' in s && ',' !in s && ':' !in s
  {
    hide Split, AddressShaped;
    var parts := Split(s, '/');
    assert '/' in s by {
      if '/' !in s {
        SplitOne(s, '/');
      }
    }
    AddressChars(parts[0]);
    forall x | x in s && x != '/'
      ensures IsDigit(x) || x == '.'
    {
      SplitChars(s, '/', x);
      var p :| p in parts && x in p;
      assert p == parts[0] || p == parts[1];
    }
  }

  lemma FirstPart(s: string, c: char)
    ensures Split(s, c)[0] == s[..Find(s, c)]
  {
    assert s[..|s|] == s;
  }

  lemma IpProblemsIff(key: string, value: string)
    ensures IpProblems(key, value) == [] <==> AddressRule(value)
  {
    hide AddressShaped, CidrShaped, ParseAddress, ParseNetwork, IsAddress, IsNetwork, Split, Strip;
    NetworkIff(value);
    AddressIff(HostPart(value));
    FirstPart(value, ',');
    FirstPart(value, ':');
    if AddressShaped(value) {
      AddressChars(value);
    }
    if CidrShaped(value) {
      CidrChars(value);
    }
    if ',' !in value && ':' !in value {
      SplitOne(value, ':');
    }
  }

  lemma SubPortProblemIff(part: string)
    ensures SubPortProblem(part) == [] <==> SubPortOk(part)
  {
    hide Strip;
  }

  lemma {:induction false} SubPortProblemsIff(parts: seq<string>)
    ensures SubPortProblems(parts) == [] <==> forall part :: part in parts ==> SubPortOk(part)
  {
    hide SubPortProblem, SubPortOk;
    if parts != [] {
      SubPortProblemIff(parts[0]);
      SubPortProblemsIff(parts[1..]);
      assert forall part :: part in parts <==> part == parts[0] || part in parts[1..];
    }
  }

  lemma PortProblemsIff(key: string, value: string)
    ensures PortProblems(key, value) == [] <==> PortRule(key, value)
  {
    hide Split, SubPortOk, SubPortProblems, AfterLast;
    SubPortProblemsIff(Split(value, ','));
  }

  /** A value without comma, colon and slash, under a key that is not for ports, passes exactly
      if it is an address or does not look like one. */
  lemma PlainPasses(s: Setting)
    requires s.key !in PORT_KEYS && ',' !in s.value && ':' !in s.value && '/' !in s.value
    ensures Passes(s) <==> (AddressShaped(s.value) ==> IsAddress(s.value))
  {
    hide Split, IsAddress, IsNetwork, AddressShaped;
    SplitOne(s.value, ':');
    if CidrShaped(s.value) {
      CidrChars(s.value);
    }
  }

  // ---------------------------------------------------------------------------
  // The issues of a text
  // ---------------------------------------------------------------------------

  function Faults(problems: seq<Problem>, lineno: nat, section: string): seq<Issue> {
    if problems == [] then [] else [Issue(Fault, lineno, section, problems[0])] + Faults(problems[1..], lineno, section)
  }

  function Truncate(text: string): string {
    if |text| <= 60 then text else text[..60] + "..."
  }

  /** The issues of one content line that is no header. */
  function LineIssues(line: string, lineno: nat, section: string): seq<Issue> {
    if section == "" then [Issue(Fault, lineno, "", OrphanLine(Truncate(line)))]
    else
      match KeyValue(line)
      case Some(s) =>
        if s.value == "" then [Issue(Info, lineno, section, EmptyValue(s.key))]
        else Faults(IpProblems(s.key, s.value), lineno, section) + Faults(PortProblems(s.key, s.value), lineno, section)
      case None =>
        if section in BARE_SECTIONS then [] else [Issue(Warning, lineno, section, NoSeparator(Truncate(line)))]
  }

  function SectionAfter(raw: string, section: string): string {
    if Header(raw).Some? then Header(raw).value else section
  }

  function ScanIssues(lines: seq<string>, lineno: nat, section: string): seq<Issue> {
    if lines == [] then []
    else
      (if ContentLine(lines[0]) && Header(lines[0]).None? then LineIssues(Strip(lines[0]), lineno, section) else [])
      + ScanIssues(lines[1..], lineno + 1, SectionAfter(lines[0], section))
  }

  function HeaderNames(lines: seq<string>): seq<string> {
    if lines == [] then []
    else (if Header(lines[0]).Some? then [Header(lines[0]).value] else []) + HeaderNames(lines[1..])
  }

  /** The names in order of first occurrence. */
  function Dedup(names: seq<string>): (r: seq<string>)
    ensures forall n :: n in r <==> n in names
    ensures forall i, j :: 0 <= i < j < |r| ==> r[i] != r[j]
  {
    if names == [] then []
    else
      var last := names[|names| - 1];
      var d := Dedup(names[..|names| - 1]);
      assert names == names[..|names| - 1] + [last];
      if last in d then d else d + [last]
  }

  /** Python's order of strings. */
  predicate Before(a: string, b: string) {
    if a == "" then true
    else if b == "" then false
    else a[0] < b[0] || (a[0] == b[0] && Before(a[1..], b[1..]))
  }

  predicate InOrder(names: seq<string>) {
    forall i, j :: 0 <= i < j < |names| ==> Before(names[i], names[j])
  }

  lemma {:induction false} BeforeTotal(a: string, b: string)
    ensures Before(a, b) || Before(b, a)
  {
    if a != "" && b != "" && a[0] == b[0] {
      BeforeTotal(a[1..], b[1..]);
    }
  }

  lemma {:induction false} BeforeTransitive(a: string, b: string, c: string)
    requires Before(a, b) && Before(b, c)
    ensures Before(a, c)
  {
    if a != "" && a[0] == b[0] && b[0] == c[0] {
      BeforeTransitive(a[1..], b[1..], c[1..]);
    }
  }

  lemma InsertInOrder(name: string, names: seq<string>, r: seq<string>)
    requires InOrder(names)
    requires names == [] || Before(name, names[0])
    requires r == [name] + names
    ensures InOrder(r)
  {
    forall j | 1 <= j < |r|
      ensures Before(name, r[j])
    {
      assert r[j] == names[j - 1];
      if j > 1 {
        BeforeTransitive(name, names[0], names[j - 1]);
      }
    }
  }

  lemma ConsInOrder(first: string, rest: seq<string>)
    requires InOrder(rest) && forall n :: n in rest ==> Before(first, n)
    ensures InOrder([first] + rest)
  {
    hide Before;
    var r := [first] + rest;
    forall i, j | 0 <= i < j < |r|
      ensures Before(r[i], r[j])
    {
      assert r[j] == rest[j - 1] && rest[j - 1] in rest;
    }
  }

  function InsertSorted(name: string, names: seq<string>): (r: seq<string>)
    ensures multiset(r) == multiset(names) + multiset{name}
    ensures InOrder(names) ==> InOrder(r)
  {
    hide Before, InOrder;
    if names == [] || Before(name, names[0]) then
      assert InOrder(names) ==> InOrder([name] + names) by {
        if InOrder(names) {
          InsertInOrder(name, names, [name] + names);
        }
      }
      [name] + names
    else
      assert names == [names[0]] + names[1..];
      var rest := InsertSorted(name, names[1..]);
      assert InOrder(names) ==> InOrder([names[0]] + rest) by {
        if InOrder(names) {
          InsertLater(name, names, rest);
        }
      }
      [names[0]] + rest
  }

  lemma InsertLater(name: string, names: seq<string>, rest: seq<string>)
    requires InOrder(names) && names != [] && !Before(name, names[0])
    requires multiset(rest) == multiset(names[1..]) + multiset{name}
    requires InOrder(names[1..]) ==> InOrder(rest)
    ensures InOrder([names[0]] + rest)
  {
    hide Before;
    BeforeTotal(name, names[0]);
    forall n | n in rest
      ensures Before(names[0], n)
    {
      assert n in multiset(rest);
      if n != name {
        assert n in names[1..];
        var i :| 0 <= i < |names[1..]| && names[1..][i] == n;
        assert names[i + 1] == n;
      }
    }
    ConsInOrder(names[0], rest);
  }

  /** `sorted(names)` */
  function Sort(names: seq<string>): (r: seq<string>)
    ensures multiset(r) == multiset(names) && InOrder(r)
    ensures forall n :: n in r <==> n in names
  {
    hide Before, InsertSorted, InOrder;
    if names == [] then
      assert InOrder([]) by {
        NothingInOrder();
      }
      []
    else
      assert names == [names[0]] + names[1..];
      var r := InsertSorted(names[0], Sort(names[1..]));
      assert forall n :: n in r <==> n in multiset(r);
      assert forall n :: n in names <==> n in multiset(names);
      r
  }

  lemma NothingInOrder()
    ensures InOrder([])
  {
  }

  function RequiredIssues(names: seq<string>): seq<Issue> {
    if "modules" in names then [] else [Issue(Fault, 0, "", SectionMissing("modules"))]
  }

  function RepeatIssues(order: seq<string>, names: seq<string>): seq<Issue> {
    if order == [] then []
    else
      (if multiset(names)[order[0]] > 1 then
         [Issue(Warning, 0, order[0], SectionRepeated(order[0], multiset(names)[order[0]]))]
       else [])
      + RepeatIssues(order[1..], names)
  }

  function AllIssues(lines: seq<string>): seq<Issue> {
    var names := HeaderNames(lines);
    ScanIssues(lines, 1, "") + RequiredIssues(names) + RepeatIssues(Sort(Dedup(names)), names)
  }

  function Count(issues: seq<Issue>, severity: Severity): nat {
    if issues == [] then 0 else (if issues[0].severity == severity then 1 else 0) + Count(issues[1..], severity)
  }

  function Validation(lines: seq<string>): Report {
    var issues := AllIssues(lines);
    Report(Count(issues, Fault) == 0, Count(issues, Fault), Count(issues, Warning), Dedup(HeaderNames(lines)), issues)
  }

  // ---------------------------------------------------------------------------
  // The validator's loops
  // ---------------------------------------------------------------------------

  lemma {:induction false} FaultsAppend(a: seq<Problem>, b: seq<Problem>, lineno: nat, section: string)
    ensures Faults(a + b, lineno, section) == Faults(a, lineno, section) + Faults(b, lineno, section)
  {
    if a == [] {
      assert a + b == b;
    } else {
      assert (a + b)[1..] == a[1..] + b;
      FaultsAppend(a[1..], b, lineno, section);
    }
  }

  /** `more` are faults of one line of a section. */
  predicate FaultsOf(more: seq<Issue>, lineno: nat, section: string) {
    forall issue :: issue in more ==> issue.severity == Fault && issue.line == lineno && issue.section == section
  }

  lemma {:induction false} FaultsAre(problems: seq<Problem>, lineno: nat, section: string)
    ensures FaultsOf(Faults(problems, lineno, section), lineno, section)
    ensures Faults(problems, lineno, section) == [] <==> problems == []
  {
    if problems != [] {
      FaultsAre(problems[1..], lineno, section);
    }
  }

  /** The check of one host part. */
  method CheckAddress(key: string, s: string, lineno: nat, section: string, issues: seq<Issue>) returns (issues': seq<Issue>)
    ensures issues' == issues + Faults(AddressProblem(key, s), lineno, section)
  {
    hide AddressShaped, ParseAddress;
    issues' := issues;
    if AddressShaped(s) {
      var address := ParseAddress(s);
      if address.None? {
        issues' := issues + [Issue(Fault, lineno, section, BadAddress(key, s))];
      }
    }
  }

  /** `_check_ip_values` */
  method CheckIpValues(value: string, lineno: nat, section: string, key: string, issues: seq<Issue>)
    returns (issues': seq<Issue>)
    ensures issues' == issues + Faults(IpProblems(key, value), lineno, section)
    ensures issues' == issues <==> AddressRule(value)
  {
    hide AddressShaped, CidrShaped, ParseAddress, ParseNetwork, AddressRule, Split, Strip, AddressProblem;
    IpProblemsIff(key, value);
    FaultsAre(IpProblems(key, value), lineno, section);
    issues' := issues;
    if CidrShaped(value) {
      var net := ParseNetwork(value);
      if net.None? {
        issues' := issues + [Issue(Fault, lineno, section, BadCidr(key, value))];
      }
      return;
    }
    if AddressShaped(value) {
      issues' := CheckAddress(key, value, lineno, section, issues);
      return;
    }
    if ',' in value {
      issues' := CheckAddress(key, Strip(Split(value, ',')[0]), lineno, section, issues');
      assert AddressProblem(key, Strip(Split(value, ',')[0])) + [] == AddressProblem(key, Strip(Split(value, ',')[0]));
    }
    if ':' in value && ',' !in value {
      issues' := CheckAddress(key, Split(value, ':')[0], lineno, section, issues');
      assert [] + AddressProblem(key, Split(value, ':')[0]) == AddressProblem(key, Split(value, ':')[0]);
    }
  }

  /** The check of one number. */
  method CheckPort(key: string, s: string, lineno: nat, section: string, issues: seq<Issue>) returns (issues': seq<Issue>)
    ensures issues' == issues + Faults(PortProblem(key, s), lineno, section)
  {
    issues' := issues;
    if s != "" && AllDigits(s) {
      var port := ParseNat(s);
      if port < 1 || port > 65535 {
        issues' := issues + [Issue(Fault, lineno, section, BadPort(key, port))];
      }
    }
  }

  /** One pass over the sub-settings. */
  method CheckSubPort(part: string, lineno: nat, section: string, issues: seq<Issue>) returns (issues': seq<Issue>)
    ensures issues' == issues + Faults(SubPortProblem(part), lineno, section)
  {
    hide PortProblem, Strip;
    issues' := issues;
    var sub := Strip(part);
    if '=' in sub {
      var e := Find(sub, '=');
      var subKey, subVal := Strip(sub[..e]), Strip(sub[e + 1..]);
      if subKey in PORT_KEYS {
        issues' := CheckPort(subKey, subVal, lineno, section, issues);
      }
    }
  }

  /** The loop over the sub-settings. */
  method CheckSubPorts(parts: seq<string>, lineno: nat, section: string, issues: seq<Issue>) returns (issues': seq<Issue>)
    ensures issues' == issues + Faults(SubPortProblems(parts), lineno, section)
  {
    hide SubPortProblem, Faults;
    issues' := issues;
    assert parts[0..] == parts;
    for i := 0 to |parts|
      invariant issues' + Faults(SubPortProblems(parts[i..]), lineno, section) ==
                issues + Faults(SubPortProblems(parts), lineno, section)
    {
      assert parts[i..][0] == parts[i] && parts[i..][1..] == parts[i + 1..];
      FaultsAppend(SubPortProblem(parts[i]), SubPortProblems(parts[i + 1..]), lineno, section);
      issues' := CheckSubPort(parts[i], lineno, section, issues');
    }
    FaultsAre([], lineno, section);
    assert issues' + [] == issues';
  }

  /** `_check_port_value` */
  method CheckPortValue(value: string, lineno: nat, section: string, key: string, issues: seq<Issue>)
    returns (issues': seq<Issue>)
    ensures issues' == issues + Faults(PortProblems(key, value), lineno, section)
    ensures issues' == issues <==> PortRule(key, value)
  {
    hide PortProblem, AfterLast, Split, Strip, PortRule, Faults, AllDigits, ParseNat;
    PortProblemsIff(key, value);
    FaultsAre(PortProblems(key, value), lineno, section);
    issues' := issues;
    if key in PORT_KEYS {
      issues' := CheckPort(key, AfterLast(value, ':'), lineno, section, issues);
    } else if ',' in value {
      issues' := CheckSubPorts(Split(value, ','), lineno, section, issues);
    } else {
      FaultsAre([], lineno, section);
    }
  }

  /** The checks of one setting: faults of its line are appended to the issues so far, and none
      exactly if the setting passes the rules. */
  method CheckSetting(s: Setting, lineno: nat, section: string, issues: seq<Issue>) returns (issues': seq<Issue>)
    ensures issues' == issues + (Faults(IpProblems(s.key, s.value), lineno, section) + Faults(PortProblems(s.key, s.value), lineno, section))
    ensures issues <= issues' && FaultsOf(issues'[|issues|..], lineno, section)
    ensures issues' == issues <==> Passes(s)
  {
    hide Faults, IpProblems, PortProblems, AddressRule, PortRule;
    FaultsAre(IpProblems(s.key, s.value), lineno, section);
    FaultsAre(PortProblems(s.key, s.value), lineno, section);
    IpProblemsIff(s.key, s.value);
    PortProblemsIff(s.key, s.value);
    issues' := CheckIpValues(s.value, lineno, section, s.key, issues);
    issues' := CheckPortValue(s.value, lineno, section, s.key, issues');
    var more := Faults(IpProblems(s.key, s.value), lineno, section) + Faults(PortProblems(s.key, s.value), lineno, section);
    assert issues' == issues + more && issues'[|issues|..] == more;
  }

  lemma ScanStep(lines: seq<string>, i: nat, lineno: nat, section: string)
    requires i < |lines|
    ensures ScanIssues(lines[i..], lineno, section) ==
            (if ContentLine(lines[i]) && Header(lines[i]).None? then LineIssues(Strip(lines[i]), lineno, section) else [])
            + ScanIssues(lines[i + 1..], lineno + 1, SectionAfter(lines[i], section))
    ensures HeaderNames(lines[i..]) ==
            (if Header(lines[i]).Some? then [Header(lines[i]).value] else []) + HeaderNames(lines[i + 1..])
  {
    hide ContentLine, Header, LineIssues, SectionAfter;
    assert lines[i..][1..] == lines[i + 1..];
  }

  lemma ScanEnd(lines: seq<string>)
    ensures forall lineno, section :: ScanIssues(lines[|lines|..], lineno, section) == []
    ensures HeaderNames(lines[|lines|..]) == []
  {
  }

  lemma DedupStep(names: seq<string>, n: string)
    ensures Dedup(names + [n]) == if n in Dedup(names) then Dedup(names) else Dedup(names) + [n]
  {
    assert (names + [n])[..|names|] == names;
  }

  /** `_check_duplicate_sections` */
  method CheckDuplicates(counts: map<string, nat>, order: seq<string>, ghost names: seq<string>) returns (issues: seq<Issue>)
    requires forall n :: n in order ==> n in counts && counts[n] == multiset(names)[n]
    ensures issues == RepeatIssues(order, names)
  {
    issues := [];
    assert order[0..] == order;
    for i := 0 to |order|
      invariant issues + RepeatIssues(order[i..], names) == RepeatIssues(order, names)
    {
      assert order[i..][0] == order[i] && order[i..][1..] == order[i + 1..];
      var name := order[i];
      if counts[name] > 1 {
        issues := issues + [Issue(Warning, 0, name, SectionRepeated(name, counts[name]))];
      }
    }
  }

  /** The checks of one content line that is no header, appended to the issues so far. */
  method CheckLine(line: string, lineno: nat, section: string, issues: seq<Issue>) returns (issues': seq<Issue>)
    ensures issues' == issues + LineIssues(line, lineno, section)
  {
    hide KeyValue, IpProblems, PortProblems, Faults, Truncate;
    if section == "" {
      return issues + [Issue(Fault, lineno, "", OrphanLine(Truncate(line)))];
    }
    var s := KeyValue(line);
    if s.Some? {
      if s.value.value == "" {
        return issues + [Issue(Info, lineno, section, EmptyValue(s.value.key))];
      }
      issues' := CheckSetting(s.value, lineno, section, issues);
    } else if section !in BARE_SECTIONS {
      return issues + [Issue(Warning, lineno, section, NoSeparator(Truncate(line)))];
    } else {
      assert issues + [] == issues;
      return issues;
    }
  }

  /** The sections counted so far are those of `names`. */
  ghost predicate Counts(counts: map<string, nat>, names: seq<string>) {
    (forall n :: n in names <==> n in counts) && forall n :: n in counts ==> counts[n] == multiset(names)[n]
  }

  lemma CountOne(counts: map<string, nat>, names: seq<string>, n: string)
    requires Counts(counts, names)
    ensures Counts(counts[n := 1 + if n in counts then counts[n] else 0], names + [n])
  {
  }

  /** One header: it is counted, and recorded when it is new. */
  method EnterSection(name: string, sectionsFound: seq<string>, sectionCounts: map<string, nat>, ghost names: seq<string>)
    returns (found: seq<string>, counts: map<string, nat>)
    requires sectionsFound == Dedup(names) && Counts(sectionCounts, names)
    ensures found == Dedup(names + [name]) && Counts(counts, names + [name])
  {
    hide Dedup, Counts;
    DedupStep(names, name);
    CountOne(sectionCounts, names, name);
    counts := sectionCounts[name := 1 + if name in sectionCounts then sectionCounts[name] else 0];
    found := sectionsFound;
    if name !in sectionsFound {
      found := sectionsFound + [name];
    }
  }

  /** The line loop of `validate_config`. */
  method Scan(lines: seq<string>)
    returns (issues: seq<Issue>, sectionsFound: seq<string>, sectionCounts: map<string, nat>)
    ensures issues == ScanIssues(lines, 1, "")
    ensures sectionsFound == Dedup(HeaderNames(lines))
    ensures Counts(sectionCounts, HeaderNames(lines))
  {
    hide ContentLine, SectionName, Strip, LineIssues, ScanIssues, HeaderNames, Dedup, Counts;
    issues, sectionsFound, sectionCounts := [], [], map[];
    var currentSection := "";
    ghost var names: seq<string> := [];
    assert lines[0..] == lines;
    NoNames();
    for i := 0 to |lines|
      invariant issues + ScanIssues(lines[i..], i + 1, currentSection) == ScanIssues(lines, 1, "")
      invariant names + HeaderNames(lines[i..]) == HeaderNames(lines)
      invariant sectionsFound == Dedup(names) && Counts(sectionCounts, names)
    {
      var raw := lines[i];
      ScanStep(lines, i, i + 1, currentSection);
      if ContentLine(raw) {
        var header := SectionName(Strip(raw));
        if header.Some? {
          currentSection := header.value;
          sectionsFound, sectionCounts := EnterSection(currentSection, sectionsFound, sectionCounts, names);
          names := names + [currentSection];
        } else {
          issues := CheckLine(Strip(raw), i + 1, currentSection, issues);
        }
      }
    }
    ScanEnd(lines);
    assert names + [] == names && issues + [] == issues;
  }

  /** `validate_config` */
  method ValidateConfig(content: string) returns (report: Report)
    ensures report == Validation(SplitLines(content))
  {
    hide ScanIssues, HeaderNames, Dedup, Sort, Count;
    var lines := SplitLines(content);
    var issues, sectionsFound, sectionCounts := Scan(lines);
    var required: seq<Issue> := [];
    if "modules" !in sectionsFound {
      required := [Issue(Fault, 0, "", SectionMissing("modules"))];
    }
    var repeats := CheckDuplicates(sectionCounts, Sort(sectionsFound), HeaderNames(lines));
    issues := issues + required + repeats;
    report := Report(Count(issues, Fault) == 0, Count(issues, Fault), Count(issues, Warning), sectionsFound, issues);
  }

  lemma NoNames()
    ensures Dedup([]) == [] && Counts(map[], [])
  {
  }
}
