/** The kinds of line that the configuration services own, recognised on a trimmed line. */
module Patterns {
  import opened Text

  /** An address pool of the `[ip-pool]` section. */
  datatype Pool = Pool(name: string, range: string)

  /** End of a match of `\d+`, then for each separator that separator and `\d+`. */
  function NumbersEnd(s: string, from: nat, separators: string): Option<nat>
    requires from <= |s|
    decreases |separators|
  {
    var n := DigitsEnd(s, from);
    if n == from then None
    else if separators == "" then Some(n)
    else if n < |s| && s[n] == separators[0] then NumbersEnd(s, n + 1, separators[1..])
    else None
  }

  /** End of a match of `\d+\.\d+\.\d+\.\d+/\d+` at the start of a line. */
  function RangeEnd(s: string): Option<nat> {
    NumbersEnd(s, 0, ".../")
  }

  predicate RangeShaped(s: string) {
    RangeEnd(s) == Some(|s|)
  }

  /** The pattern `^(\d+\.\d+\.\d+\.\d+/\d+)(?:,(.+))?$` on a trimmed line:
      a named pool, or a pool named by its own range. */
  function PoolEntry(line: string): Option<Pool> {
    match RangeEnd(line)
    case None => None
    case Some(n) =>
      if n >= |line| then Some(Pool(line, line))
      else if line[n] == ',' && n + 1 < |line| then Some(Pool(Strip(line[n + 1..]), line[..n]))
      else None
  }

  lemma {:induction false} NumbersEndAppend(a: string, b: string, from: nat, separators: string)
    requires from <= |a| && NumbersEnd(a, from, separators) == Some(|a|)
    requires b == "" || (!IsDigit(b[0]) && b[0] !in separators)
    ensures NumbersEnd(a + b, from, separators) == Some(|a|)
    decreases |separators|
  {
    var n := DigitsEnd(a, from);
    assert forall i :: 0 <= i < |a| ==> (a + b)[i] == a[i];
    assert b != "" ==> (a + b)[|a|] == b[0];
    assert DigitsEnd(a + b, from) == n;
    if separators != "" {
      assert n < |a|;
      NumbersEndAppend(a, b, n + 1, separators[1..]);
    }
  }

  lemma RangeIsVisible(range: string)
    requires RangeShaped(range)
    ensures range != "" && IsDigit(range[0]) && IsDigit(range[|range| - 1])
  {
    LastIsDigit(range, 0, ".../");
  }

  lemma {:induction false} LastIsDigit(s: string, from: nat, separators: string)
    requires from <= |s| && NumbersEnd(s, from, separators) == Some(|s|)
    ensures from < |s| && IsDigit(s[from]) && IsDigit(s[|s| - 1])
    decreases |separators|
  {
    var n := DigitsEnd(s, from);
    if separators != "" {
      LastIsDigit(s, n + 1, separators[1..]);
    }
  }

  lemma {:induction false} NumbersOneLine(s: string, from: nat, separators: string)
    requires from <= |s| && NumbersEnd(s, from, separators) == Some(|s|)
    requires forall c :: c in separators ==> !IsBreak(c)
    ensures forall i :: from <= i < |s| ==> !IsBreak(s[i])
    decreases |separators|
  {
    var n := DigitsEnd(s, from);
    if separators != "" {
      assert !IsBreak(separators[0]);
      NumbersOneLine(s, n + 1, separators[1..]);
    }
  }

  lemma RangeOneLine(range: string)
    requires RangeShaped(range)
    ensures OneLine(range)
  {
    var separators := ".../";
    assert separators == ['.', '.', '.', '/'];
    NumbersOneLine(range, 0, separators);
  }

  /** The line `add_pool` writes is a pool entry with the trimmed name and the range. */
  lemma WrittenPoolLine(name: string, range: string)
    requires RangeShaped(range) && Strip(name) != ""
    ensures Strip(range + "," + name) == range + "," + RStrip(name)
    ensures PoolEntry(Strip(range + "," + name)) == Some(Pool(Strip(name), range))
  {
    hide Strip, RStrip;
    RangeIsVisible(range);
    StripAppend(range + ",", name);
    var line := range + "," + RStrip(name);
    assert line == range + ("," + RStrip(name));
    NumbersEndAppend(range, "," + RStrip(name), 0, ".../");
    assert line[|range| + 1..] == RStrip(name) && line[..|range|] == range;
    StripRStrip(name);
  }

  /** Five runs of digits, separated by three dots and a slash at these positions. */
  predicate RangeCuts(s: string, i: nat, j: nat, k: nat, l: nat) {
    && 0 < i && i + 1 < j && j + 1 < k && k + 1 < l && l + 1 < |s|
    && s[i] == '.' && s[j] == '.' && s[k] == '.' && s[l] == '/'
    && forall n :: 0 <= n < |s| && n != i && n != j && n != k && n != l ==> IsDigit(s[n])
  }

  ghost predicate RangeText(s: string) {
    exists i: nat, j: nat, k: nat, l: nat :: RangeCuts(s, i, j, k, l)
  }

  lemma DigitsEndIs(s: string, from: nat, n: nat)
    requires from <= n <= |s| && (forall i :: from <= i < n ==> IsDigit(s[i])) && (n < |s| ==> !IsDigit(s[n]))
    ensures DigitsEnd(s, from) == n
  {
  }

  const SEPARATORS: string := ".../"

  lemma SeparatorStep(s: string, from: nat, m: nat)
    requires from <= |s| && m < |SEPARATORS|
    ensures NumbersEnd(s, from, SEPARATORS[m..]) ==
            var n := DigitsEnd(s, from);
            if n > from && n < |s| && s[n] == SEPARATORS[m] then NumbersEnd(s, n + 1, SEPARATORS[m + 1..]) else None
  {
    hide DigitsEnd;
    var rest := SEPARATORS[m..];
    assert rest[0] == SEPARATORS[m] && rest[1..] == SEPARATORS[m + 1..];
  }

  lemma LastStep(s: string, from: nat)
    requires from <= |s|
    ensures NumbersEnd(s, from, SEPARATORS[4..]) == if DigitsEnd(s, from) == from then None else Some(DigitsEnd(s, from))
  {
    hide DigitsEnd;
    assert SEPARATORS[4..] == "";
  }

  /** A run of digits from one position to the separator at another. */
  predicate DigitsTo(s: string, from: nat, i: nat, c: char) {
    from < i < |s| && s[i] == c && forall n :: from <= n < i ==> IsDigit(s[n])
  }

  /** Runs of digits between the separators that are left, to the end. */
  ghost predicate Shape(s: string, from: nat, m: nat)
    requires m <= 4
    decreases 4 - m
  {
    if m == 4 then from < |s| && forall n :: from <= n < |s| ==> IsDigit(s[n])
    else exists i: nat :: DigitsTo(s, from, i, SEPARATORS[m]) && Shape(s, i + 1, m + 1)
  }

  lemma {:induction false} ShapeIff(s: string, from: nat, m: nat)
    requires from <= |s| && m <= 4
    ensures NumbersEnd(s, from, SEPARATORS[m..]) == Some(|s|) <==> Shape(s, from, m)
    decreases 4 - m
  {
    hide NumbersEnd, DigitsEnd;
    var n := DigitsEnd(s, from);
    if m == 4 {
      LastStep(s, from);
      if Shape(s, from, m) {
        DigitsEndIs(s, from, |s|);
      }
    } else {
      SeparatorStep(s, from, m);
      if n > from && n < |s| && s[n] == SEPARATORS[m] {
        assert DigitsTo(s, from, n, SEPARATORS[m]);
        ShapeIff(s, n + 1, m + 1);
      }
      if Shape(s, from, m) {
        var i := NextCut(s, from, m);
        NoDigit(m);
        DigitsEndIs(s, from, i);
      }
    }
  }

  lemma NextCut(s: string, from: nat, m: nat) returns (i: nat)
    requires m < 4 && Shape(s, from, m)
    ensures DigitsTo(s, from, i, SEPARATORS[m]) && Shape(s, i + 1, m + 1)
  {
    hide DigitsTo;
    i :| DigitsTo(s, from, i, SEPARATORS[m]) && Shape(s, i + 1, m + 1);
  }

  lemma NoDigit(m: nat)
    requires m < 4
    ensures !IsDigit(SEPARATORS[m])
    ensures SEPARATORS[m] == if m == 3 then '/' else '.'
  {
  }

  lemma CutsShape(s: string, i: nat, j: nat, k: nat, l: nat)
    requires RangeCuts(s, i, j, k, l)
    ensures Shape(s, 0, 0)
  {
    CutsDigits(s, i, j, k, l);
    hide DigitsTo, RangeCuts;
    NoDigit(0);
    NoDigit(1);
    NoDigit(2);
    NoDigit(3);
    assert Shape(s, k + 1, 3);
    assert Shape(s, j + 1, 2);
    assert Shape(s, i + 1, 1);
  }

  lemma CutsDigits(s: string, i: nat, j: nat, k: nat, l: nat)
    requires RangeCuts(s, i, j, k, l)
    ensures DigitsTo(s, 0, i, '.') && DigitsTo(s, i + 1, j, '.') && DigitsTo(s, j + 1, k, '.') && DigitsTo(s, k + 1, l, '/')
    ensures Shape(s, l + 1, 4)
  {
  }

  lemma DigitsCuts(s: string, i: nat, j: nat, k: nat, l: nat)
    requires DigitsTo(s, 0, i, '.') && DigitsTo(s, i + 1, j, '.') && DigitsTo(s, j + 1, k, '.') && DigitsTo(s, k + 1, l, '/')
    requires l + 1 < |s| && forall n :: l + 1 <= n < |s| ==> IsDigit(s[n])
    ensures RangeCuts(s, i, j, k, l)
  {
  }

  lemma ShapeCuts(s: string)
    requires Shape(s, 0, 0)
    ensures RangeText(s)
  {
    hide DigitsTo, RangeCuts;
    var i := NextCut(s, 0, 0);
    var j := NextCut(s, i + 1, 1);
    var k := NextCut(s, j + 1, 2);
    var l := NextCut(s, k + 1, 3);
    NoDigit(0);
    NoDigit(1);
    NoDigit(2);
    NoDigit(3);
    DigitsCuts(s, i, j, k, l);
  }

  /** The range pattern accepts exactly five numerals in dotted form with a slash. */
  lemma RangeShapedIff(s: string)
    ensures RangeShaped(s) <==> RangeText(s)
  {
    hide NumbersEnd, RangeCuts, Shape;
    assert SEPARATORS[0..] == ".../";
    ShapeIff(s, 0, 0);
    if i: nat, j: nat, k: nat, l: nat :| RangeCuts(s, i, j, k, l) {
      CutsShape(s, i, j, k, l);
    }
    if Shape(s, 0, 0) {
      ShapeCuts(s);
    }
  }

  /** What a pool line says: a range alone is a pool named by itself; a range, a comma and
      some text is a pool with that text, trimmed, as its name; no other line is a pool. */
  lemma PoolEntryIff(line: string, p: Pool)
    ensures PoolEntry(line) == Some(p) <==>
            || (RangeText(line) && p == Pool(line, line))
            || (RangeText(p.range) && exists rest :: rest != "" && line == p.range + [','] + rest && p.name == Strip(rest))
  {
    hide Strip, NumbersEnd, RangeText;
    RangeShapedIff(line);
    RangeShapedIff(p.range);
    if RangeEnd(line).Some? {
      var n := RangeEnd(line).value;
      RangeEndIs(line);
      if n < |line| && line[n] == ',' && n + 1 < |line| {
        assert line == line[..n] + [','] + line[n + 1..];
        assert line[n + 1..] != "";
      }
    }
    if RangeText(p.range) {
      forall rest | rest != "" && line == p.range + [','] + rest
        ensures RangeEnd(line) == Some(|p.range|) && line[..|p.range|] == p.range && line[|p.range| + 1..] == rest
      {
        NumbersEndAppend(p.range, [','] + rest, 0, ".../");
        assert p.range + ([','] + rest) == line;
      }
    }
  }

  lemma RangeEndIs(line: string)
    requires RangeEnd(line).Some?
    ensures RangeEnd(line).value <= |line| && RangeShaped(line[..RangeEnd(line).value])
  {
    NumbersEndCut(line, 0, ".../");
  }

  lemma {:induction false} NumbersEndCut(s: string, from: nat, separators: string)
    requires from <= |s| && NumbersEnd(s, from, separators).Some?
    ensures var n := NumbersEnd(s, from, separators).value;
            from <= n <= |s| && NumbersEnd(s[..n], from, separators) == Some(n)
    decreases |separators|
  {
    var m := DigitsEnd(s, from);
    if separators != "" {
      NumbersEndCut(s, m + 1, separators[1..]);
    }
    var n := NumbersEnd(s, from, separators).value;
    var t := s[..n];
    assert forall i :: 0 <= i < n ==> t[i] == s[i];
    assert DigitsEnd(t, from) == m;
  }

  /** Lines a service reads or replaces. */
  datatype Pattern =
    | Key(key: string)          // `key =`, in any case and spacing
    | KeyWithValue(key: string) // the same with something after the equals sign
    | PoolNamed(name: string)
    | AnyPool
    | AnyLine

  predicate Matches(p: Pattern, line: string) {
    match p
    case Key(key) => HasKey(line, key)
    case KeyWithValue(key) => HasKey(line, key) && ValueOf(line) != ""
    case PoolNamed(name) => PoolEntry(line).Some? && PoolEntry(line).value.name == name
    case AnyPool => PoolEntry(line).Some?
    case AnyLine => true
  }

  /** The lines of `lines` that `p` matches. */
  function Keep(lines: seq<string>, p: Pattern): (kept: seq<string>)
    ensures forall l :: l in kept ==> l in lines && Matches(p, l)
  {
    if lines == [] then []
    else (if Matches(p, lines[0]) then [lines[0]] else []) + Keep(lines[1..], p)
  }

  lemma {:induction false} KeepAppend(a: seq<string>, b: seq<string>, p: Pattern)
    ensures Keep(a + b, p) == Keep(a, p) + Keep(b, p)
  {
    if a == [] {
      assert a + b == b;
    } else {
      assert (a + b)[1..] == a[1..] + b;
      KeepAppend(a[1..], b, p);
    }
  }

  lemma {:induction false} KeepAll(lines: seq<string>, p: Pattern)
    requires forall l :: l in lines ==> Matches(p, l)
    ensures Keep(lines, p) == lines
  {
    if lines != [] {
      KeepAll(lines[1..], p);
    }
  }
}
