/** What the validator's report means. */
module ValidatorMeaning {
  import opened Text
  import opened Ipv4
  import opened Validator

  // ---------------------------------------------------------------------------
  // Valid
  // ---------------------------------------------------------------------------

  /** A content line that is no header. */
  predicate Plain(raw: string) {
    ContentLine(raw) && Header(raw).None?
  }

  /** A line without a key, or one whose setting passes the IP and port rules. */
  predicate LinePasses(raw: string) {
    KeyValue(Strip(raw)).Some? ==> Passes(KeyValue(Strip(raw)).value)
  }

  predicate HeaderBefore(lines: seq<string>, i: nat)
    requires i <= |lines|
  {
    exists j :: 0 <= j < i && Header(lines[j]).Some?
  }

  /** No content line precedes the first header. */
  predicate NoOrphans(lines: seq<string>) {
    forall i :: 0 <= i < |lines| && Plain(lines[i]) ==> HeaderBefore(lines, i)
  }

  predicate SettingsPass(lines: seq<string>) {
    forall i :: 0 <= i < |lines| && Plain(lines[i]) ==> LinePasses(lines[i])
  }

  predicate Declares(lines: seq<string>, section: string) {
    exists i :: 0 <= i < |lines| && Header(lines[i]) == Some(section)
  }

  /** The same, told line by line; `seen`: a header came before. */
  predicate ScanOk(lines: seq<string>, seen: bool) {
    lines == [] ||
    ((Plain(lines[0]) ==> seen && LinePasses(lines[0])) && ScanOk(lines[1..], seen || Header(lines[0]).Some?))
  }

  lemma {:induction false} CountAppend(a: seq<Issue>, b: seq<Issue>, severity: Severity)
    ensures Count(a + b, severity) == Count(a, severity) + Count(b, severity)
  {
    if a == [] {
      assert a + b == b;
    } else {
      assert (a + b)[1..] == a[1..] + b;
      CountAppend(a[1..], b, severity);
    }
  }

  lemma {:induction false} FaultCount(problems: seq<Problem>, lineno: nat, section: string)
    ensures Count(Faults(problems, lineno, section), Fault) == |problems|
  {
    if problems != [] {
      FaultCount(problems[1..], lineno, section);
      var rest := Faults(problems[1..], lineno, section);
      assert ([Issue(Fault, lineno, section, problems[0])] + rest)[1..] == rest;
    }
  }

  lemma OneIssue(issue: Issue)
    ensures Count([issue], Fault) == if issue.severity == Fault then 1 else 0
  {
    assert [issue][1..] == [];
  }

  lemma LineFaults(raw: string, lineno: nat, section: string)
    ensures Count(LineIssues(Strip(raw), lineno, section), Fault) == 0 <==> section != "" && LinePasses(raw)
  {
    hide Strip, KeyValue, IpProblems, PortProblems, AddressRule, PortRule, Faults, Count, Truncate;
    var line := Strip(raw);
    NoCount();
    if section == "" {
      OneIssue(Issue(Fault, lineno, "", OrphanLine(Truncate(line))));
    } else if KeyValue(line).Some? {
      var s := KeyValue(line).value;
      OneIssue(Issue(Info, lineno, section, EmptyValue(s.key)));
      CountAppend(Faults(IpProblems(s.key, s.value), lineno, section), Faults(PortProblems(s.key, s.value), lineno, section), Fault);
      FaultCount(IpProblems(s.key, s.value), lineno, section);
      FaultCount(PortProblems(s.key, s.value), lineno, section);
      IpProblemsIff(s.key, s.value);
      PortProblemsIff(s.key, s.value);
      EmptyPasses(s.key);
    } else {
      OneIssue(Issue(Warning, lineno, section, NoSeparator(Truncate(line))));
    }
  }

  lemma EmptyPasses(key: string)
    ensures Passes(Setting(key, ""))
  {
  }

  lemma NoCount()
    ensures Count([], Fault) == 0
  {
  }

  lemma {:induction false} ScanFaults(lines: seq<string>, lineno: nat, section: string)
    ensures Count(ScanIssues(lines, lineno, section), Fault) == 0 <==> ScanOk(lines, section != "")
  {
    hide ContentLine, Strip, LineIssues, SectionName, LinePasses, Count;
    NoCount();
    if lines != [] {
      var head := if Plain(lines[0]) then LineIssues(Strip(lines[0]), lineno, section) else [];
      ScanFaults(lines[1..], lineno + 1, SectionAfter(lines[0], section));
      CountAppend(head, ScanIssues(lines[1..], lineno + 1, SectionAfter(lines[0], section)), Fault);
      LineFaults(lines[0], lineno, section);
    }
  }

  lemma {:induction false} ScanOkIff(lines: seq<string>, seen: bool)
    ensures ScanOk(lines, seen) <==>
            forall i :: 0 <= i < |lines| && Plain(lines[i]) ==> (seen || HeaderBefore(lines, i)) && LinePasses(lines[i])
  {
    hide Plain, LinePasses, Header;
    if lines != [] {
      var rest := lines[1..];
      ScanOkIff(rest, seen || Header(lines[0]).Some?);
      forall i | 0 <= i < |rest|
        ensures HeaderBefore(lines, i + 1) <==> Header(lines[0]).Some? || HeaderBefore(rest, i)
      {
        if HeaderBefore(lines, i + 1) {
          var j :| 0 <= j < i + 1 && Header(lines[j]).Some?;
          assert j > 0 ==> Header(rest[j - 1]).Some?;
        }
        if HeaderBefore(rest, i) {
          var j :| 0 <= j < i && Header(rest[j]).Some?;
          assert Header(lines[j + 1]).Some?;
        }
      }
      assert forall i :: 0 <= i < |rest| ==> rest[i] == lines[i + 1];
      assert !HeaderBefore(lines, 0);
      assert forall i :: 1 <= i < |lines| ==> lines[i] == rest[i - 1];
    }
  }

  lemma {:induction false} NamesDeclared(lines: seq<string>, section: string)
    ensures section in HeaderNames(lines) <==> Declares(lines, section)
  {
    hide Header;
    if lines != [] {
      NamesDeclared(lines[1..], section);
      assert forall i :: 1 <= i < |lines| ==> lines[i] == lines[1..][i - 1];
      if Declares(lines[1..], section) {
        var i :| 0 <= i < |lines[1..]| && Header(lines[1..][i]) == Some(section);
        assert Header(lines[i + 1]) == Some(section);
      }
    }
  }

  lemma {:induction false} RepeatsAreWarnings(order: seq<string>, names: seq<string>)
    ensures Count(RepeatIssues(order, names), Fault) == 0
  {
    hide Count;
    NoCount();
    if order != [] {
      RepeatsAreWarnings(order[1..], names);
      var n := multiset(names)[order[0]];
      var head := if n > 1 then [Issue(Warning, 0, order[0], SectionRepeated(order[0], n))] else [];
      CountAppend(head, RepeatIssues(order[1..], names), Fault);
      OneIssue(Issue(Warning, 0, order[0], SectionRepeated(order[0], n)));
    }
  }

  predicate Valid(lines: seq<string>) {
    Validation(lines).valid
  }

  lemma ValidIffScan(lines: seq<string>)
    ensures Valid(lines) <==> ScanOk(lines, false) && "modules" in HeaderNames(lines)
  {
    hide ScanIssues, HeaderNames, Dedup, Sort, RepeatIssues, Count, ScanOk;
    var names := HeaderNames(lines);
    var scan, required, repeats := ScanIssues(lines, 1, ""), RequiredIssues(names), RepeatIssues(Sort(Dedup(names)), names);
    CountAppend(scan + required, repeats, Fault);
    CountAppend(scan, required, Fault);
    ScanFaults(lines, 1, "");
    RepeatsAreWarnings(Sort(Dedup(names)), names);
    OneIssue(Issue(Fault, 0, "", SectionMissing("modules")));
    NoCount();
  }

  /** The report says "valid" exactly if no content line precedes the first header, a
      `modules` header exists, and every setting passes the IP and port rules (`Passes`). */
  lemma ValidMeaning(lines: seq<string>)
    ensures Valid(lines) <==> NoOrphans(lines) && Declares(lines, "modules") && SettingsPass(lines)
  {
    hide Valid, ScanOk, HeaderNames, Plain, LinePasses, HeaderBefore, Declares;
    ValidIffScan(lines);
    ScanOkIff(lines, false);
    NamesDeclared(lines, "modules");
  }

  // ---------------------------------------------------------------------------
  // Sections and their counts
  // ---------------------------------------------------------------------------

  function FirstAt(names: seq<string>, n: string): nat {
    if names == [] || names[0] == n then 0 else 1 + FirstAt(names[1..], n)
  }

  lemma {:induction false} FirstAtSnoc(names: seq<string>, n: string, x: string)
    ensures x in names ==> FirstAt(names + [n], x) == FirstAt(names, x) < |names|
    ensures n !in names ==> FirstAt(names + [n], n) == |names|
  {
    if names != [] {
      assert (names + [n])[1..] == names[1..] + [n];
      assert names == [names[0]] + names[1..];
      FirstAtSnoc(names[1..], n, x);
    }
  }

  /** The sections are the header names without repetition, in order of first occurrence. */
  lemma {:induction false} SectionsInOrder(names: seq<string>, i: nat, j: nat)
    requires i < j < |Dedup(names)|
    ensures FirstAt(names, Dedup(names)[i]) < FirstAt(names, Dedup(names)[j])
  {
    var init, last := names[..|names| - 1], names[|names| - 1];
    assert names == init + [last];
    var d := Dedup(init);
    FirstAtSnoc(init, last, Dedup(names)[i]);
    FirstAtSnoc(init, last, Dedup(names)[j]);
    if j < |d| {
      SectionsInOrder(init, i, j);
    } else {
      FirstAtSnoc(init, last, d[i]);
    }
  }

  function SumCounts(sections: seq<string>, names: seq<string>): nat {
    if sections == [] then 0 else multiset(names)[sections[0]] + SumCounts(sections[1..], names)
  }

  lemma {:induction false} SumAppend(a: seq<string>, b: seq<string>, names: seq<string>)
    ensures SumCounts(a + b, names) == SumCounts(a, names) + SumCounts(b, names)
  {
    if a == [] {
      assert a + b == b;
    } else {
      assert (a + b)[1..] == a[1..] + b;
      SumAppend(a[1..], b, names);
    }
  }

  lemma {:induction false} SumSnoc(sections: seq<string>, names: seq<string>, n: string)
    requires forall i, j :: 0 <= i < j < |sections| ==> sections[i] != sections[j]
    ensures SumCounts(sections, names + [n]) == SumCounts(sections, names) + if n in sections then 1 else 0
  {
    if sections != [] {
      assert sections == [sections[0]] + sections[1..];
      SumSnoc(sections[1..], names, n);
      assert multiset(names + [n])[sections[0]] == multiset(names)[sections[0]] + if sections[0] == n then 1 else 0;
      if sections[0] == n {
        assert n !in sections[1..];
      }
    }
  }

  /** The counts of the sections add up to the number of header lines. */
  lemma {:induction false} CountsAddUp(names: seq<string>)
    ensures SumCounts(Dedup(names), names) == |names|
  {
    if names != [] {
      var init, last := names[..|names| - 1], names[|names| - 1];
      assert names == init + [last];
      CountsAddUp(init);
      SumSnoc(Dedup(init), init, last);
      if last !in Dedup(init) {
        SumAppend(Dedup(init), [last], names);
        assert multiset(names) == multiset(init) + multiset{last};
        assert last !in multiset(init);
        assert [last][1..] == [] && SumCounts([last], names) == 1;
      }
    }
  }

  lemma {:induction false} RepeatIssuesAre(order: seq<string>, names: seq<string>, issue: Issue)
    ensures issue in RepeatIssues(order, names) <==>
            exists n :: n in order && multiset(names)[n] > 1
                        && issue == Issue(Warning, 0, n, SectionRepeated(n, multiset(names)[n]))
  {
    if order != [] {
      assert order == [order[0]] + order[1..];
      RepeatIssuesAre(order[1..], names, issue);
    }
  }

  lemma {:induction false} ScanReportsNoRepeats(lines: seq<string>, lineno: nat, section: string, issue: Issue)
    requires issue in ScanIssues(lines, lineno, section)
    ensures !issue.problem.SectionRepeated? && !issue.problem.SectionMissing?
  {
    hide ContentLine, Strip, SectionName, KeyValue, Truncate;
    if ContentLine(lines[0]) && Header(lines[0]).None? && issue in LineIssues(Strip(lines[0]), lineno, section) {
      LineReportsNoRepeats(Strip(lines[0]), lineno, section, issue);
    } else {
      ScanReportsNoRepeats(lines[1..], lineno + 1, SectionAfter(lines[0], section), issue);
    }
  }

  lemma LineReportsNoRepeats(line: string, lineno: nat, section: string, issue: Issue)
    requires issue in LineIssues(line, lineno, section)
    ensures !issue.problem.SectionRepeated? && !issue.problem.SectionMissing?
  {
    hide KeyValue, Truncate, IpProblems, PortProblems, Faults;
    if section != "" && KeyValue(line).Some? && KeyValue(line).value.value != "" {
      var s := KeyValue(line).value;
      IpProblemKinds(s.key, s.value);
      PortProblemKinds(s.key, s.value);
      if issue in Faults(IpProblems(s.key, s.value), lineno, section) {
        FaultFrom(IpProblems(s.key, s.value), lineno, section, issue);
      } else {
        FaultFrom(PortProblems(s.key, s.value), lineno, section, issue);
      }
    }
  }

  lemma {:induction false} FaultFrom(problems: seq<Problem>, lineno: nat, section: string, issue: Issue)
    requires issue in Faults(problems, lineno, section)
    ensures issue.problem in problems
  {
    if issue != Issue(Fault, lineno, section, problems[0]) {
      FaultFrom(problems[1..], lineno, section, issue);
    }
  }

  lemma IpProblemKinds(key: string, value: string)
    ensures forall p :: p in IpProblems(key, value) ==> p.BadCidr? || p.BadAddress?
  {
    hide AddressShaped, ParseAddress, ParseNetwork, CidrShaped, Split, Strip;
  }

  lemma PortProblemKinds(key: string, value: string)
    ensures forall p :: p in PortProblems(key, value) ==> p.BadPort?
  {
    hide Split, SubPortProblems, AfterLast;
    if key !in PORT_KEYS && ',' in value {
      SubPortProblemKinds(Split(value, ','));
    }
  }

  lemma {:induction false} SubPortProblemKinds(parts: seq<string>)
    ensures forall p :: p in SubPortProblems(parts) ==> p.BadPort?
  {
    hide Strip;
    if parts != [] {
      SubPortProblemKinds(parts[1..]);
    }
  }

  /** A repeated-section warning exists exactly for each section with more than one header,
      and says how many there are. */
  lemma RepeatWarnings(lines: seq<string>, n: string, count: nat)
    ensures var names := HeaderNames(lines);
            (exists issue :: issue in AllIssues(lines) && issue.problem == SectionRepeated(n, count)) <==>
            count == multiset(names)[n] > 1
  {
    hide HeaderNames, ScanIssues, RepeatIssues, Dedup, Sort;
    var names := HeaderNames(lines);
    var order := Sort(Dedup(names));
    var warning := Issue(Warning, 0, n, SectionRepeated(n, multiset(names)[n]));
    RepeatIssuesAre(order, names, warning);
    forall issue | issue in AllIssues(lines) && issue.problem == SectionRepeated(n, count)
      ensures issue in RepeatIssues(order, names)
    {
      if issue in ScanIssues(lines, 1, "") {
        ScanReportsNoRepeats(lines, 1, "", issue);
      }
    }
    forall issue | issue in RepeatIssues(order, names) && issue.problem == SectionRepeated(n, count)
      ensures count == multiset(names)[n] > 1
    {
      RepeatIssuesAre(order, names, issue);
    }
    if multiset(names)[n] > 1 {
      assert n in names && n in order;
      assert warning in AllIssues(lines);
    }
  }
}
