/** What the text functions compute, character by character. */
module TextMeaning {
  import opened Text

  /** The blanks, and the ones among them that end a line. */
  const BLANKS := {' ', '\t', '\n', '\U{b}', '\U{c}', '\r', '\U{1c}', '\U{1d}', '\U{1e}', '\U{1f}'}
  const BREAKS := {'\n', '\U{b}', '\U{c}', '\r', '\U{1c}', '\U{1d}', '\U{1e}'}

  lemma Characters(c: char)
    ensures IsSpace(c) <==> c in BLANKS
    ensures IsBreak(c) <==> c in BREAKS
  {
  }

  /** Trimming takes off exactly the blanks around a text. */
  lemma StripMeaning(before: string, t: string, after: string)
    requires (forall c :: c in before ==> c in BLANKS) && (forall c :: c in after ==> c in BLANKS)
    requires t != "" ==> t[0] !in BLANKS && t[|t| - 1] !in BLANKS
    ensures Strip(before + t + after) == t
  {
    hide Strip, IsSpace;
    forall c
      ensures IsSpace(c) <==> c in BLANKS
    {
      Characters(c);
    }
    var s, n := before + t + after, |before|;
    assert forall i :: 0 <= i < n ==> s[i] == before[i] && before[i] in before;
    assert forall i :: n + |t| <= i < |s| ==> s[i] == after[i - n - |t|] && after[i - n - |t|] in after;
    assert t != "" ==> s[n] == t[0] && s[n + |t| - 1] == t[|t| - 1];
    StripIs(s, n, n + |t|);
    assert s[n..n + |t|] == t;
  }

  /** A line ends at the first break; a carriage return with a line feed is one break. */
  lemma LinesMeaning(line: string, c: char, rest: string)
    requires (forall x :: x in line ==> x !in BREAKS) && c in BREAKS
    ensures !(c == '\r' && rest != "" && rest[0] == '\n') ==> SplitLines(line + [c] + rest) == [line] + SplitLines(rest)
    ensures c == '\r' && rest != "" && rest[0] == '\n' ==> SplitLines(line + [c] + rest) == [line] + SplitLines(rest[1..])
    ensures SplitLines(line) == if line == "" then [] else [line]
  {
    forall i | 0 <= i < |line|
      ensures !IsBreak(line[i])
    {
      assert line[i] in line;
      Characters(line[i]);
    }
    Characters(c);
    CutAtBreak(line, c, rest);
    assert FindBreak(line, 0) == |line|;
  }

  lemma CutAtBreak(line: string, c: char, rest: string)
    requires OneLine(line) && IsBreak(c)
    ensures var s := line + [c] + rest;
            SplitLines(s) == [line] + SplitLines(if c == '\r' && rest != "" && rest[0] == '\n' then rest[1..] else rest)
  {
    hide IsBreak;
    var s, n := line + [c] + rest, |line|;
    assert s[n] == c && (rest != "" ==> s[n + 1] == rest[0]);
    assert forall i :: 0 <= i < n ==> s[i] == line[i];
    BreakIs(s, n);
    assert s[..n] == line && s[n + 1..] == rest;
    assert rest != "" ==> s[n + 2..] == rest[1..];
    CutThere(s, n);
  }

  lemma BreakIs(s: string, n: nat)
    requires n < |s| && IsBreak(s[n]) && forall i :: 0 <= i < n ==> !IsBreak(s[i])
    ensures FindBreak(s, 0) == n
  {
    hide IsBreak;
  }

  lemma CutThere(s: string, n: nat)
    requires n < |s| && IsBreak(s[n]) && FindBreak(s, 0) == n
    ensures SplitLines(s) == [s[..n]] + SplitLines(s[AfterBreak(s, n)..])
  {
    hide IsBreak, FindBreak, AfterBreak;
  }

  /** A number as `int` takes it: an optional sign and groups of digits with single
      underscores between them, blanks around. */
  predicate IntParts(s: string, n: int, sign: string, groups: seq<string>) {
    && (sign == "" || (|sign| == 1 && (sign[0] == '+' || sign[0] == '-'))) && groups != [] && DigitGroups(groups)
    && Strip(s) == sign + Joined(groups, '_')
    && n == if sign != "" && sign[0] == '-' then -(ParseNat(Concat(groups)) as int) else ParseNat(Concat(groups)) as int
  }

  ghost predicate IntText(s: string, n: int) {
    exists sign, groups :: IntParts(s, n, sign, groups)
  }

  lemma DigitsInGroups(groups: seq<string>)
    requires groups != [] && DigitGroups(groups)
    ensures var t := Joined(groups, '_'); t != "" && IsDigit(t[0])
    ensures Split(Joined(groups, '_'), '_') == groups
  {
    assert groups[0] in groups;
    forall g | g in groups
      ensures '_' !in g
    {
    }
    SplitJoined(groups, '_');
  }

  /** The groups of a number whose sign is known. */
  lemma IntGroups(s: string, sign: string, body: string)
    requires Strip(s) == sign + body
    requires if sign == "" then body == "" || (body[0] != '-' && body[0] != '+') else |sign| == 1 && (sign[0] == '+' || sign[0] == '-')
    ensures var groups := Split(body, '_');
            ParseInt(s) ==
            if DigitGroups(groups) then
              Some(if sign != "" && sign[0] == '-' then -(ParseNat(Concat(groups)) as int) else ParseNat(Concat(groups)) as int)
            else None
  {
    hide Strip, ParseNat, Split, Concat;
    var t := Strip(s);
    var signed := t != "" && (t[0] == '-' || t[0] == '+');
    if sign == "" {
      assert t == body;
      assert !signed;
    } else {
      assert t[0] == sign[0] && t[1..] == body;
      assert signed;
    }
    assert Split(if signed then t[1..] else t, '_') == Split(body, '_');
  }

  lemma IntIsText(s: string)
    requires ParseInt(s).Some?
    ensures IntText(s, ParseInt(s).value)
  {
    hide Strip, ParseNat, Split, Concat, Joined, ParseInt, DigitGroups;
    var t := Strip(s);
    var signed := t != "" && (t[0] == '-' || t[0] == '+');
    var sign, body := if signed then [t[0]] else [], if signed then t[1..] else t;
    var groups := Split(body, '_');
    assert t == sign + body;
    JoinedSplit(body, '_');
    IntGroups(s, sign, body);
    assert IntParts(s, ParseInt(s).value, sign, groups);
  }

  lemma TextIsInt(s: string, n: int)
    requires IntText(s, n)
    ensures ParseInt(s) == Some(n)
  {
    hide Strip, ParseNat, Split, Concat, Joined, ParseInt, DigitGroups;
    var sign, groups :| IntParts(s, n, sign, groups);
    DigitsInGroups(groups);
    IntGroups(s, sign, Joined(groups, '_'));
  }

  /** `int` succeeds on exactly these texts, with the number they denote. */
  lemma IntMeaning(s: string, n: int)
    ensures ParseInt(s) == Some(n) <==> IntText(s, n)
  {
    hide ParseInt, IntText;
    if ParseInt(s) == Some(n) {
      IntIsText(s);
    }
    if IntText(s, n) {
      TextIsInt(s, n);
    }
  }
}
