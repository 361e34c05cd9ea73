/** Text as the agent's line scanners see it: characters, lines, trimming,
    `key = value` recognition and decimal numbers, over ASCII. */
module Text {

  datatype Option<+T> = None | Some(value: T)

  // ---------------------------------------------------------------------------
  // Characters
  // ---------------------------------------------------------------------------

  /** The ASCII characters `str.strip` removes and `\s` matches. */
  predicate IsSpace(c: char) {
    c == ' ' || '\t' <= c <= '\r' || '\U{1c}' <= c <= '\U{1f}'
  }

  /** The ASCII characters at which `str.splitlines` cuts. */
  predicate IsBreak(c: char) {
    '\n' <= c <= '\r' || '\U{1c}' <= c <= '\U{1e}'
  }

  predicate IsDigit(c: char) {
    '0' <= c <= '9'
  }

  function LowerChar(c: char): char {
    if 'A' <= c <= 'Z' then (c as int + 32) as char else c
  }

  function Lower(s: string): (r: string)
    ensures |r| == |s|
    ensures forall i :: 0 <= i < |s| ==> r[i] == LowerChar(s[i])
  {
    seq(|s|, i requires 0 <= i < |s| => LowerChar(s[i]))
  }

  predicate AllDigits(s: string) {
    forall i :: 0 <= i < |s| ==> IsDigit(s[i])
  }

  /** A string that stays on one line of a file. */
  predicate OneLine(s: string) {
    forall i :: 0 <= i < |s| ==> !IsBreak(s[i])
  }

  predicate OneLineEach(lines: seq<string>) {
    forall l :: l in lines ==> OneLine(l)
  }

  lemma OneLineAppend(a: string, b: string)
    requires OneLine(a) && OneLine(b)
    ensures OneLine(a + b)
  {
  }

  // ---------------------------------------------------------------------------
  // Searching and splitting
  // ---------------------------------------------------------------------------

  /** Position of the first `c` at or after `from`, or `|s|`. */
  function FindFrom(s: string, c: char, from: nat): (n: nat)
    requires from <= |s|
    ensures from <= n <= |s|
    ensures forall i :: from <= i < n ==> s[i] != c
    ensures n < |s| ==> s[n] == c
    decreases |s| - from
  {
    if from == |s| || s[from] == c then from else FindFrom(s, c, from + 1)
  }

  /** Position of the first `c` in `s`, or `|s|`. */
  function Find(s: string, c: char): (n: nat)
    ensures n <= |s|
    ensures forall i :: 0 <= i < n ==> s[i] != c
    ensures n < |s| ==> s[n] == c
  {
    FindFrom(s, c, 0)
  }

  /** `s.split(c)` */
  function Split(s: string, c: char): (parts: seq<string>)
    ensures |parts| >= 1
    ensures forall p :: p in parts ==> c !in p
  {
    var n := Find(s, c);
    if n == |s| then [s] else [s[..n]] + Split(s[n + 1..], c)
  }

  lemma SplitOne(s: string, c: char)
    requires c !in s
    ensures Split(s, c) == [s] && s[..Find(s, c)] == s
  {
  }

  lemma SplitCons(first: string, c: char, rest: string)
    requires c !in first
    ensures Split(first + [c] + rest, c) == [first] + Split(rest, c)
  {
    var s := first + [c] + rest;
    assert s[|first|] == c;
    assert forall i :: 0 <= i < |first| ==> s[i] == first[i];
    assert Find(s, c) == |first|;
    assert s[..|first|] == first && s[|first| + 1..] == rest;
  }

  /** `c.join(parts)` */
  function Joined(parts: seq<string>, c: char): string
    requires parts != []
  {
    if |parts| == 1 then parts[0] else parts[0] + [c] + Joined(parts[1..], c)
  }

  lemma JoinedCons(first: string, rest: seq<string>, c: char)
    ensures Joined([first] + rest, c) == if rest == [] then first else first + [c] + Joined(rest, c)
  {
    var all := [first] + rest;
    assert all[0] == first && all[1..] == rest;
  }

  lemma {:induction false} JoinedSplit(s: string, c: char)
    ensures Joined(Split(s, c), c) == s
  {
    var n := Find(s, c);
    hide Joined, Find;
    if n < |s| {
      var rest := Split(s[n + 1..], c);
      JoinedSplit(s[n + 1..], c);
      JoinedCons(s[..n], rest, c);
      assert s == s[..n] + [c] + s[n + 1..];
    } else {
      JoinedCons(s, [], c);
      assert [s] + [] == [s];
    }
  }

  lemma {:induction false} SplitJoined(parts: seq<string>, c: char)
    requires parts != [] && forall p :: p in parts ==> c !in p
    ensures Split(Joined(parts, c), c) == parts
  {
    hide Joined, Split;
    var first, rest := parts[0], parts[1..];
    assert first in parts && parts == [first] + rest;
    JoinedCons(first, rest, c);
    if rest == [] {
      SplitOne(first, c);
    } else {
      assert forall p :: p in rest ==> p in parts;
      SplitJoined(rest, c);
      SplitCons(first, c, Joined(rest, c));
    }
  }

  /** The pieces are the only ones without a separator that join to the text. */
  lemma SplitMeaning(s: string, c: char, parts: seq<string>)
    ensures parts == Split(s, c) <==> parts != [] && Joined(parts, c) == s && forall p :: p in parts ==> c !in p
  {
    JoinedSplit(s, c);
    if parts != [] && Joined(parts, c) == s && forall p :: p in parts ==> c !in p {
      SplitJoined(parts, c);
    }
  }

  /** Nothing but the separators is lost by splitting. */
  lemma {:induction false} SplitChars(s: string, c: char, x: char)
    requires x in s && x != c
    ensures exists p :: p in Split(s, c) && x in p
  {
    var n := Find(s, c);
    if n < |s| {
      if x in s[..n] {
        assert s[..n] == Split(s, c)[0];
      } else {
        assert s == s[..n] + [c] + s[n + 1..];
        SplitChars(s[n + 1..], c, x);
        var p :| p in Split(s[n + 1..], c) && x in p;
        assert p in Split(s, c);
      }
    }
  }

  /** `s.rsplit(c, 1)[-1]` */
  function AfterLast(s: string, c: char): (r: string)
    ensures c !in r
    ensures |r| <= |s| && s[|s| - |r|..] == r
    ensures |r| < |s| ==> s[|s| - |r| - 1] == c
  {
    if s == "" || s[|s| - 1] == c then ""
    else AfterLast(s[..|s| - 1], c) + [s[|s| - 1]]
  }

  /** Position of the first line break at or after `from`, or `|s|`. */
  function FindBreak(s: string, from: nat): (n: nat)
    requires from <= |s|
    ensures from <= n <= |s|
    ensures forall i :: from <= i < n ==> !IsBreak(s[i])
    ensures n < |s| ==> IsBreak(s[n])
    decreases |s| - from
  {
    if from == |s| || IsBreak(s[from]) then from else FindBreak(s, from + 1)
  }

  /** Position after the line break at `n`. */
  function AfterBreak(s: string, n: nat): (next: nat)
    requires n < |s| && IsBreak(s[n])
    ensures n < next <= |s|
    ensures forall i :: n <= i < next ==> IsBreak(s[i])
  {
    if s[n] == '\r' && n + 1 < |s| && s[n + 1] == '\n' then n + 2 else n + 1
  }

  /** `s.splitlines()`: a carriage return followed by a line feed is one break. */
  function SplitLines(s: string): (lines: seq<string>)
    ensures OneLineEach(lines)
  {
    if s == "" then []
    else
      var n := FindBreak(s, 0);
      if n == |s| then [s]
      else
        [s[..n]] + SplitLines(s[AfterBreak(s, n)..])
  }

  /** `"\n".join(lines) + "\n"` */
  function Unlines(lines: seq<string>): string {
    if lines == [] then "\n"
    else if |lines| == 1 then lines[0] + "\n"
    else lines[0] + "\n" + Unlines(lines[1..])
  }

  /** Writing a non-empty list of lines and reading the file back gives the same list. */
  lemma {:induction false} SplitUnlines(lines: seq<string>)
    requires lines != [] && OneLineEach(lines)
    ensures SplitLines(Unlines(lines)) == lines
  {
    hide SplitLines;
    SplitFirst(lines[0], if |lines| == 1 then "" else Unlines(lines[1..]));
    assert lines[0] + "\n" + "" == lines[0] + "\n";
    if |lines| == 1 {
      NoLines();
      assert lines == [lines[0]] + [];
    } else {
      SplitUnlines(lines[1..]);
      assert lines == [lines[0]] + lines[1..];
    }
  }

  lemma NoLines()
    ensures SplitLines("") == []
  {
  }

  lemma SplitFirst(line: string, rest: string)
    requires OneLine(line)
    ensures SplitLines(line + "\n" + rest) == [line] + SplitLines(rest)
  {
    var s := line + "\n" + rest;
    assert s[|line|] == '\n';
    assert forall i :: 0 <= i < |line| ==> s[i] == line[i];
    assert FindBreak(s, 0) == |line|;
    assert s[..|line|] == line && s[|line| + 1..] == rest;
  }

  // ---------------------------------------------------------------------------
  // Trimming
  // ---------------------------------------------------------------------------

  /** Position of the first visible character, or `|s|`. */
  function FirstVisible(s: string, from: nat): (n: nat)
    requires from <= |s|
    ensures from <= n <= |s|
    ensures forall i :: from <= i < n ==> IsSpace(s[i])
    ensures n < |s| ==> !IsSpace(s[n])
    decreases |s| - from
  {
    if from < |s| && IsSpace(s[from]) then FirstVisible(s, from + 1) else from
  }

  /** Position just after the last visible character of `s[from..to]`, or `from`. */
  function AfterVisible(s: string, from: nat, to: nat): (n: nat)
    requires from <= to <= |s|
    ensures from <= n <= to
    ensures forall i :: n <= i < to ==> IsSpace(s[i])
    ensures from < n ==> !IsSpace(s[n - 1])
  {
    if from < to && IsSpace(s[to - 1]) then AfterVisible(s, from, to - 1) else to
  }

  /** `s.lstrip()` */
  function LStrip(s: string): string {
    s[FirstVisible(s, 0)..]
  }

  /** `s.rstrip()` */
  function RStrip(s: string): string {
    s[..AfterVisible(s, 0, |s|)]
  }

  predicate Trimmed(s: string) {
    s == "" || (!IsSpace(s[0]) && !IsSpace(s[|s| - 1]))
  }

  /** `s.strip()` */
  function Strip(s: string): (r: string)
    ensures Trimmed(r) && |r| <= |s|
  {
    var from := FirstVisible(s, 0);
    s[from..AfterVisible(s, from, |s|)]
  }

  lemma StripTrimmed(s: string)
    requires Trimmed(s)
    ensures LStrip(s) == s && RStrip(s) == s && Strip(s) == s
  {
    assert s[0..|s|] == s;
  }

  lemma OneLineSlice(s: string, from: nat, to: nat)
    requires OneLine(s) && from <= to <= |s|
    ensures OneLine(s[from..to])
  {
  }

  lemma OneLineStrip(s: string)
    requires OneLine(s)
    ensures OneLine(Strip(s))
  {
    var from := FirstVisible(s, 0);
    var r := Strip(s);
    assert forall i :: 0 <= i < |r| ==> r[i] == s[from + i];
  }

  /** The trimmed text is the only trimmed slice between blanks. */
  lemma StripIs(s: string, from: nat, to: nat)
    requires from <= to <= |s|
    requires forall i :: 0 <= i < from || to <= i < |s| ==> IsSpace(s[i])
    requires from < to ==> !IsSpace(s[from]) && !IsSpace(s[to - 1])
    ensures Strip(s) == s[from..to]
  {
    assert from < to ==> FirstVisible(s, 0) == from && AfterVisible(s, from, |s|) == to;
  }

  /** Trimming `a + b` when `a` starts and ends with a visible character. */
  lemma StripAppend(a: string, b: string)
    requires a != "" && Trimmed(a)
    ensures Strip(a + b) == a + RStrip(b)
  {
    var s, m, n := a + b, |a|, AfterVisible(b, 0, |b|);
    assert s[0] == a[0] && s[m - 1] == a[m - 1];
    assert n > 0 ==> s[m + n - 1] == b[n - 1];
    assert forall i :: m + n <= i < |s| ==> s[i] == b[i - m];
    StripIs(s, 0, m + n);
    assert s[0..m + n] == a + b[..n];
  }

  lemma StripInTwo(s: string)
    ensures Strip(s) == RStrip(LStrip(s))
  {
    var from := FirstVisible(s, 0);
    var l := s[from..];
    var n := AfterVisible(l, 0, |l|);
    assert forall i :: 0 <= i < |l| ==> l[i] == s[from + i];
    assert n == 0 || s[from + n - 1] == l[n - 1];
    assert forall i :: from + n <= i < |s| ==> s[i] == l[i - from];
    assert AfterVisible(s, from, |s|) == from + n;
  }

  lemma StripRStrip(s: string)
    ensures Strip(RStrip(s)) == Strip(s)
  {
    var from := FirstVisible(s, 0);
    var to := AfterVisible(s, from, |s|);
    var r := RStrip(s);
    assert AfterVisible(s, 0, |s|) == if from < |s| then to else 0;
    if from < |s| {
      StripIs(r, from, to);
      assert r[from..to] == s[from..to];
    }
  }

  // ---------------------------------------------------------------------------
  // key = value lines
  // ---------------------------------------------------------------------------

  predicate HasEq(line: string) {
    Find(line, '=') < |line|
  }

  /** `line.partition("=")[0].strip().lower()` */
  function KeyOf(line: string): string {
    Lower(Strip(line[..Find(line, '=')]))
  }

  /** `line.partition("=")[2].strip()` */
  function ValueOf(line: string): string {
    if HasEq(line) then Strip(line[Find(line, '=') + 1..]) else ""
  }

  predicate HasKey(line: string, key: string) {
    HasEq(line) && KeyOf(line) == key
  }

  /** A configuration key as the agent writes it: lower case, no blank, no `=`. */
  predicate KeyName(key: string) {
    key != "" && forall i :: 0 <= i < |key| ==> 'a' <= key[i] <= 'z' || key[i] == '-'
  }

  /** The pattern `key\s*=` matched at the start of a line, ignoring case:
      what follows the equals sign, if it matches. */
  function MatchKey(line: string, key: string): Option<string> {
    if |key| <= |line| && Lower(line[..|key|]) == key then
      var rest := LStrip(line[|key|..]);
      if rest != "" && rest[0] == '=' then Some(rest[1..]) else None
    else None
  }

  /** A line that starts with a key, blanks and an equals sign is partitioned there. */
  lemma KeyFront(line: string, n: nat, m: nat)
    requires 0 < n <= m < |line| && line[m] == '='
    requires KeyName(Lower(line[..n]))
    requires forall i :: n <= i < m ==> IsSpace(line[i])
    ensures Find(line, '=') == m && KeyOf(line) == Lower(line[..n])
  {
    var head := Lower(line[..n]);
    forall i | 0 <= i < n
      ensures line[i] != '=' && !IsSpace(line[i])
    {
      assert head[i] == LowerChar(line[..n][i]);
    }
    assert line[..m][0..n] == line[..n];
    StripIs(line[..m], 0, n);
  }

  lemma MatchKeyGivesKey(line: string, key: string)
    requires KeyName(key) && MatchKey(line, key).Some?
    ensures HasKey(line, key)
    ensures MatchKey(line, key).value == line[Find(line, '=') + 1..]
  {
    hide Strip, FirstVisible;
    var n, tail := |key|, line[|key|..];
    var f := FirstVisible(tail, 0);
    var m := n + f;
    assert tail[f] == LStrip(tail)[0] == '=' && line[m] == tail[f];
    forall i | n <= i < m
      ensures IsSpace(line[i])
    {
      assert line[i] == tail[i - n];
    }
    KeyFront(line, n, m);
    assert LStrip(tail)[1..] == tail[f + 1..] == line[m + 1..];
  }

  lemma HasKeyGivesMatch(line: string, key: string)
    requires Trimmed(line) && KeyName(key) && HasKey(line, key)
    ensures MatchKey(line, key).Some?
  {
    var n, e := |key|, Find(line, '=');
    var before := line[..e];
    assert e > 0 && before[0] == line[0];
    assert FirstVisible(before, 0) == 0;
    assert Strip(before) == before[0..n] == line[..n];
    var tail := line[n..];
    assert forall i :: 0 <= i < e - n ==> tail[i] == before[n + i];
    assert tail[e - n] == line[e];
    assert FirstVisible(tail, 0) == e - n;
  }

  /** The two ways in which the services recognise a key agree: the anchored pattern
      matches exactly the trimmed lines whose text before the first equals sign is the key. */
  lemma MatchKeyIffHasKey(line: string, key: string)
    requires Trimmed(line) && KeyName(key)
    ensures MatchKey(line, key).Some? <==> HasKey(line, key)
    ensures HasKey(line, key) ==> Strip(MatchKey(line, key).value) == ValueOf(line)
  {
    if HasKey(line, key) {
      HasKeyGivesMatch(line, key);
    }
    if MatchKey(line, key).Some? {
      MatchKeyGivesKey(line, key);
    }
  }

  lemma LowerKeyName(key: string)
    requires KeyName(key)
    ensures Lower(key) == key && Trimmed(key)
  {
  }

  /** A line the agent writes carries the key and the trimmed value it was given. */
  lemma WrittenKeyLine(key: string, value: string)
    requires KeyName(key)
    ensures Strip(key + "=" + value) == key + "=" + RStrip(value)
    ensures HasKey(Strip(key + "=" + value), key)
    ensures ValueOf(Strip(key + "=" + value)) == Strip(value)
  {
    LowerKeyName(key);
    var a := key + "=";
    StripAppend(a, value);
    var line := a + RStrip(value);
    var n := |key|;
    assert line[..n] == key && line[n] == '=';
    KeyFront(line, n, n);
    assert line[n + 1..] == RStrip(value);
    StripRStrip(value);
  }

  // ---------------------------------------------------------------------------
  // Numbers
  // ---------------------------------------------------------------------------

  function DigitValue(c: char): (d: nat)
    requires IsDigit(c)
    ensures d < 10
  {
    c as int - '0' as int
  }

  function DigitChar(d: nat): (c: char)
    requires d < 10
    ensures IsDigit(c) && DigitValue(c) == d
  {
    ('0' as int + d) as char
  }

  /** `str(n)` */
  function Decimal(n: nat): (s: string)
    ensures s != "" && AllDigits(s)
  {
    if n < 10 then [DigitChar(n)] else Decimal(n / 10) + [DigitChar(n % 10)]
  }

  /** `int(s)` on a run of digits. */
  function ParseNat(s: string): nat
    requires AllDigits(s)
  {
    if s == "" then 0 else ParseNat(s[..|s| - 1]) * 10 + DigitValue(s[|s| - 1])
  }

  lemma {:induction false} ParseDecimal(n: nat)
    ensures ParseNat(Decimal(n)) == n
  {
    if n >= 10 {
      var s := Decimal(n);
      assert s[..|s| - 1] == Decimal(n / 10);
      ParseDecimal(n / 10);
    }
  }

  lemma {:induction false} DecimalFirst(n: nat)
    requires n > 0
    ensures Decimal(n)[0] != '0'
  {
    if n >= 10 {
      DecimalFirst(n / 10);
    }
  }

  /** Digits without a leading zero are the numeral of the number they denote. */
  lemma {:induction false} DecimalParse(s: string)
    requires s != "" && AllDigits(s) && (s == "0" || s[0] != '0')
    ensures Decimal(ParseNat(s)) == s
    ensures s[0] != '0' ==> ParseNat(s) > 0
  {
    var q, d := s[..|s| - 1], s[|s| - 1];
    assert DigitChar(DigitValue(d)) == d;
    if q == "" {
      assert s == [d];
    } else {
      assert q[0] == s[0];
      DecimalParse(q);
      assert ParseNat(s) / 10 == ParseNat(q) && ParseNat(s) % 10 == DigitValue(d);
      assert s == q + [d];
    }
  }

  /** End of the run of digits that starts at `from`. */
  function DigitsEnd(s: string, from: nat): (n: nat)
    requires from <= |s|
    ensures from <= n <= |s|
    ensures forall i :: from <= i < n ==> IsDigit(s[i])
    ensures n < |s| ==> !IsDigit(s[n])
    decreases |s| - from
  {
    if from < |s| && IsDigit(s[from]) then DigitsEnd(s, from + 1) else from
  }

  /** The number at the front of a text, as `(\d+)` captures it. */
  function LeadingNat(s: string): Option<nat> {
    var n := DigitsEnd(s, 0);
    if n == 0 then None else Some(ParseNat(s[..n]))
  }

  lemma LeadingNatOfDigits(s: string)
    requires s != "" && AllDigits(s)
    ensures LeadingNat(s) == Some(ParseNat(s))
  {
    assert DigitsEnd(s, 0) == |s|;
    assert s[..|s|] == s;
  }

  lemma LeadingNatOfDecimal(n: nat)
    ensures LeadingNat(Decimal(n)) == Some(n)
  {
    LeadingNatOfDigits(Decimal(n));
    ParseDecimal(n);
  }

  lemma LeadingNatRStrip(s: string)
    ensures LeadingNat(RStrip(s)) == LeadingNat(s)
  {
    var r := RStrip(s);
    var n, m := DigitsEnd(s, 0), DigitsEnd(r, 0);
    assert forall i :: 0 <= i < |r| ==> r[i] == s[i];
    assert m < |s| ==> !IsDigit(s[m]);
    assert n == m;
    assert s[..n] == r[..m];
  }

  /** The pattern `key\s*=\s*(\d+)` matched at the start of a line: the captured number. */
  function MatchNumber(line: string, key: string): Option<nat> {
    match MatchKey(line, key)
    case None => None
    case Some(rest) => LeadingNat(LStrip(rest))
  }

  /** ... which is the number at the front of the value, when the line has the key. */
  lemma MatchNumberIsLeading(line: string, key: string)
    requires Trimmed(line) && KeyName(key)
    ensures MatchNumber(line, key) == if HasKey(line, key) then LeadingNat(ValueOf(line)) else None
  {
    MatchKeyIffHasKey(line, key);
    if HasKey(line, key) {
      var rest := MatchKey(line, key).value;
      StripInTwo(rest);
      LeadingNatRStrip(LStrip(rest));
    }
  }

  function Concat(parts: seq<string>): (s: string)
    ensures (forall p :: p in parts ==> AllDigits(p)) ==> AllDigits(s)
  {
    if parts == [] then ""
    else
      assert parts[0] in parts && forall p :: p in parts[1..] ==> p in parts;
      parts[0] + Concat(parts[1..])
  }

  /** Runs of digits, none empty. */
  predicate DigitGroups(groups: seq<string>) {
    forall g :: g in groups ==> g != "" && AllDigits(g)
  }

  /** `int(s)`, which allows a sign and single underscores between digits;
      `None` stands for `ValueError`. */
  function ParseInt(s: string): Option<int> {
    var t := Strip(s);
    var signed := t != "" && (t[0] == '-' || t[0] == '+');
    var groups := Split(if signed then t[1..] else t, '_');
    if DigitGroups(groups) then
      var n: int := ParseNat(Concat(groups));
      Some(if signed && t[0] == '-' then -n else n)
    else None
  }

  lemma ConcatOne(s: string)
    ensures Concat([s]) == s
  {
    assert [s][1..] == [];
    assert s + "" == s;
  }

  lemma DigitsPlain(s: string)
    requires s != "" && AllDigits(s)
    ensures Strip(s) == s && Split(s, '_') == [s] && s[0] != '-' && s[0] != '+'
  {
    hide Strip, Split;
    assert IsDigit(s[0]) && IsDigit(s[|s| - 1]);
    StripTrimmed(s);
    SplitOne(s, '_');
  }

  /** `int` reads what `str` writes. */
  lemma IntOfDecimal(n: nat)
    ensures ParseInt(Decimal(n)) == Some(n)
  {
    hide Split, Strip, ParseNat, Decimal, Concat;
    DigitsPlain(Decimal(n));
    ConcatOne(Decimal(n));
    ParseDecimal(n);
  }
}
