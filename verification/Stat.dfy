/** The two parsers of `show stat`. */
module Stat {
  import opened Text
  import opened StatScan
  import opened StatMeaning
  import opened StatRadius

  /** `parse_stat` */
  method ParseStat(text: string) returns (result: Basic)
    ensures result == ScanBasic(SplitLines(text), None, NO_STAT)
    ensures BasicReport(SplitLines(text), |SplitLines(text)|, result)
  {
    hide BasicReport, Strip, Blank, TopLevel, SectionOf, WithUptime, WithSession, KeyPart, AfterColon;
    var lines := SplitLines(text);
    ShortMeaning(lines);
    result := NO_STAT;
    var section: Option<string> := None;
    assert lines[0..] == lines;
    for i := 0 to |lines|
      invariant ScanBasic(lines[i..], section, result) == ScanBasic(lines, None, NO_STAT)
    {
      assert lines[i..][0] == lines[i] && lines[i..][1..] == lines[i + 1..];
      var raw := lines[i];
      var stripped := Strip(raw);
      if Blank(raw) {
        continue;
      }
      if TopLevel(raw) {
        result := WithUptime(result, stripped);
        section := SectionOf(stripped);
        continue;
      }
      if section == Some(SESSIONS) && ':' in stripped {
        result := WithSession(result, KeyPart(stripped), AfterColon(stripped));
      }
    }
  }

  /** Everything the extended parser reports. */
  lemma FullMeaning(lines: seq<string>)
    ensures var end := ScanExtended(lines, START);
            && (end.failed <==> exists i :: 0 <= i < |lines| && RadiusLine(lines[i]) && ')' !in Strip(lines[i]))
            && (!end.failed ==>
                  BasicReport(lines, |lines|, end.e.basic) && ExtraReport(lines, |lines|, end.e) && RadiusReport(lines, end.e.radius))
  {
    hide ScanExtended, BasicReport, ExtraReport, RadiusReport, RadiusLine, Strip;
    RadiusMeaning(lines);
    if !ScanExtended(lines, START).failed {
      ParsersAgree(lines);
      ShortMeaning(lines);
      ExtraMeaning(lines);
    }
  }

  /** `parse_stat_extended`; `None` stands for `ValueError`. */
  method ParseStatExtended(text: string) returns (result: Option<Extended>)
    ensures var end := ScanExtended(SplitLines(text), START);
            result == if end.failed then None else Some(end.e)
    ensures var lines := SplitLines(text);
            && (result.None? <==> exists i :: 0 <= i < |lines| && RadiusLine(lines[i]) && ')' !in Strip(lines[i]))
            && (result.Some? ==>
                  && BasicReport(lines, |lines|, result.value.basic)
                  && ExtraReport(lines, |lines|, result.value)
                  && RadiusReport(lines, result.value.radius))
  {
    hide BasicReport, ExtraReport, RadiusReport, RadiusLine, Strip, Blank, TopLevel, AfterTop, AfterIndented;
    var lines := SplitLines(text);
    FullMeaning(lines);
    var p := START;
    assert lines[0..] == lines;
    for i := 0 to |lines|
      invariant !p.failed && ScanExtended(lines[i..], p) == ScanExtended(lines, START)
    {
      assert lines[i..][0] == lines[i] && lines[i..][1..] == lines[i + 1..];
      var raw := lines[i];
      if Blank(raw) {
        continue;
      }
      if TopLevel(raw) {
        p := AfterTop(p, Strip(raw));
        if p.failed {
          return None;
        }
        continue;
      }
      IndentedNeverFails(p, Strip(raw));
      p := AfterIndented(p, Strip(raw));
    }
    p := Flush(p);
    return Some(p.e);
  }
}
