/** What the readers of settings report, told from the lines of the file: the latest line of
    the section that has the key decides, or the default if there is none. */
module SettingsMeaning {
  import opened Text
  import opened Sections
  import opened KeyLines
  import CL = ConnectionLimits
  import PadoDelay
  import PppoeRuntime
  import opened Radius

  // ---------------------------------------------------------------------------
  // Lines of a section
  // ---------------------------------------------------------------------------

  /** The latest header before position `i` is one of the names, in any case. */
  ghost predicate Inside(lines: seq<string>, i: nat, names: set<string>)
    requires i <= |lines|
  {
    exists h :: 0 <= h < i && IsHeader(lines[h]) && Lower(Strip(lines[h])) in names
                && forall k :: h < k < i ==> !IsHeader(lines[k])
  }

  /** Line `i` belongs to a section of these names. */
  ghost predicate Within(lines: seq<string>, i: int, names: set<string>) {
    0 <= i < |lines| && !IsHeader(lines[i]) && Inside(lines, i, names)
  }

  /** A header is a line whose first visible character is an opening bracket. */
  lemma HeaderMeaning(raw: string)
    ensures IsHeader(raw) <==> exists i :: 0 <= i < |raw| && raw[i] == '[' && forall k :: 0 <= k < i ==> IsSpace(raw[k])
  {
    var from := FirstVisible(raw, 0);
    if i :| 0 <= i < |raw| && raw[i] == '[' && forall k :: 0 <= k < i ==> IsSpace(raw[k]) {
      assert from == i;
      assert AfterVisible(raw, from, |raw|) > from;
    }
  }

  /** The trimmed lines of the sections, from position `k` on, in file order. */
  ghost function Picked(lines: seq<string>, names: set<string>, k: nat): seq<string>
    requires k <= |lines|
    decreases |lines| - k
  {
    if k == |lines| then []
    else (if Within(lines, k, names) then [Strip(lines[k])] else []) + Picked(lines, names, k + 1)
  }

  lemma InsideStep(lines: seq<string>, i: nat, names: set<string>)
    requires i < |lines|
    ensures Inside(lines, i + 1, names) <==>
            if IsHeader(lines[i]) then Lower(Strip(lines[i])) in names else Inside(lines, i, names)
  {
    hide IsHeader, Strip, Lower;
    if !IsHeader(lines[i]) && Inside(lines, i, names) {
      var h :| 0 <= h < i && IsHeader(lines[h]) && Lower(Strip(lines[h])) in names
               && forall k :: h < k < i ==> !IsHeader(lines[k]);
      assert 0 <= h < i + 1;
    }
  }

  lemma {:induction false} PickedFrom(lines: seq<string>, names: set<string>, k: nat)
    requires k <= |lines|
    ensures Body(lines[k..], names, Inside(lines, k, names)) == Picked(lines, names, k)
    decreases |lines| - k
  {
    hide IsHeader, Strip, Lower, Inside;
    if k < |lines| {
      assert lines[k..][0] == lines[k] && lines[k..][1..] == lines[k + 1..];
      InsideStep(lines, k, names);
      PickedFrom(lines, names, k + 1);
    }
  }

  /** A reader of a section sees its trimmed lines, all of them and in order. */
  lemma BodyMeaning(lines: seq<string>, names: set<string>)
    ensures Body(lines, names, false) == Picked(lines, names, 0)
  {
    assert lines[0..] == lines;
    PickedFrom(lines, names, 0);
  }

  // ---------------------------------------------------------------------------
  // The latest setting
  // ---------------------------------------------------------------------------

  /** The line is `key = value`, the key in any case, with any blanks around both. */
  ghost predicate Says(raw: string, key: string, value: string) {
    exists a, b :: Strip(raw) == a + ['='] + b && '=' !in a && Lower(Strip(a)) == key && Strip(b) == value
  }

  lemma CutAt(line: string, a: string, b: string)
    requires line == a + ['='] + b && '=' !in a
    ensures Find(line, '=') == |a| && line[..|a|] == a && line[|a| + 1..] == b && HasEq(line)
  {
    assert line[|a|] == '=';
    assert forall i :: 0 <= i < |a| ==> line[i] == a[i];
  }

  lemma SaysMeaning(raw: string, key: string, value: string)
    ensures Says(raw, key, value) <==> HasKey(Strip(raw), key) && ValueOf(Strip(raw)) == value
  {
    hide Strip, Lower;
    var line := Strip(raw);
    if HasKey(line, key) && ValueOf(line) == value {
      var n := Find(line, '=');
      assert line == line[..n] + ['='] + line[n + 1..];
      assert '=' !in line[..n];
    }
    if Says(raw, key, value) {
      var a, b :| line == a + ['='] + b && '=' !in a && Lower(Strip(a)) == key && Strip(b) == value;
      CutAt(line, a, b);
    }
  }

  /** A value with a number at its front. */
  ghost predicate StartsWith(value: string, n: nat) {
    exists d, rest :: value == d + rest && d != "" && AllDigits(d) && (rest != "" ==> !IsDigit(rest[0])) && n == ParseNat(d)
  }

  lemma StartsWithMeaning(value: string, n: nat)
    ensures StartsWith(value, n) <==> LeadingNat(value) == Some(n)
  {
    hide ParseNat;
    var m := DigitsEnd(value, 0);
    if m > 0 && n == ParseNat(value[..m]) {
      assert value == value[..m] + value[m..];
    }
    if d, rest :| value == d + rest && d != "" && AllDigits(d) && (rest != "" ==> !IsDigit(rest[0])) && n == ParseNat(d) {
      assert forall i :: 0 <= i < |d| ==> value[i] == d[i];
      assert rest != "" ==> value[|d|] == rest[0];
      assert m == |d| && value[..m] == d;
    }
  }

  /** The latest line of the sections that has the key; `None` if there is no such line. */
  ghost predicate LatestText(lines: seq<string>, names: set<string>, key: string, found: Option<string>) {
    match found
    case None => forall i, v :: Within(lines, i, names) ==> !Says(lines[i], key, v)
    case Some(value) =>
      exists i :: Within(lines, i, names) && Says(lines[i], key, value)
                  && forall j, v :: i < j && Within(lines, j, names) ==> !Says(lines[j], key, v)
  }

  ghost predicate SaysNumber(raw: string, key: string, n: nat) {
    exists v :: Says(raw, key, v) && StartsWith(v, n)
  }

  /** The latest line of the sections that gives the key a number. */
  ghost predicate LatestNumber(lines: seq<string>, names: set<string>, key: string, found: Option<nat>) {
    match found
    case None => forall i, n :: Within(lines, i, names) ==> !SaysNumber(lines[i], key, n)
    case Some(value) =>
      exists i :: Within(lines, i, names) && SaysNumber(lines[i], key, value)
                  && forall j, n :: i < j && Within(lines, j, names) ==> !SaysNumber(lines[j], key, n)
  }

  ghost predicate Latest(lines: seq<string>, names: set<string>, key: string, numeric: bool, i: int) {
    && Within(lines, i, names) && Sets(Strip(lines[i]), key, numeric)
    && forall j :: i < j && Within(lines, j, names) ==> !Sets(Strip(lines[j]), key, numeric)
  }

  /** From line `k` on, no line of the sections has the key. */
  ghost predicate NoneFrom(lines: seq<string>, names: set<string>, key: string, numeric: bool, k: int) {
    forall i :: k <= i && Within(lines, i, names) ==> !Sets(Strip(lines[i]), key, numeric)
  }

  lemma NoneFromStep(lines: seq<string>, names: set<string>, key: string, numeric: bool, k: int)
    requires 0 <= k < |lines|
    ensures NoneFrom(lines, names, key, numeric, k) <==>
            !(Within(lines, k, names) && Sets(Strip(lines[k]), key, numeric)) && NoneFrom(lines, names, key, numeric, k + 1)
  {
    hide Strip, Sets, Inside, IsHeader;
  }

  lemma LatestIs(lines: seq<string>, names: set<string>, key: string, numeric: bool, k: int)
    requires Within(lines, k, names) && Sets(Strip(lines[k]), key, numeric) && NoneFrom(lines, names, key, numeric, k + 1)
    ensures Latest(lines, names, key, numeric, k)
  {
    hide Strip, Sets, Inside, IsHeader;
  }

  lemma LastLineCons(line: string, rest: seq<string>, key: string, numeric: bool)
    ensures LastLine([line] + rest, key, numeric) ==
            if LastLine(rest, key, numeric).Some? then LastLine(rest, key, numeric)
            else if Sets(line, key, numeric) then Some(line) else None
  {
    hide Sets;
    assert ([line] + rest)[0] == line && ([line] + rest)[1..] == rest;
  }

  lemma PickedStep(lines: seq<string>, names: set<string>, k: nat)
    requires k < |lines|
    ensures Picked(lines, names, k) ==
            if Within(lines, k, names) then [Strip(lines[k])] + Picked(lines, names, k + 1) else Picked(lines, names, k + 1)
  {
    hide Within, Strip;
    var rest := Picked(lines, names, k + 1);
    assert [] + rest == rest;
  }

  lemma {:induction false} LatestPicked(lines: seq<string>, names: set<string>, key: string, numeric: bool, k: nat)
    requires k <= |lines|
    ensures var r := LastLine(Picked(lines, names, k), key, numeric);
            && (r.None? ==> NoneFrom(lines, names, key, numeric, k))
            && (r.Some? ==> exists i :: Latest(lines, names, key, numeric, i) && r.value == Strip(lines[i]))
    decreases |lines| - k
  {
    if k < |lines| {
      hide Strip, Sets, Within, NoneFrom, Latest, LastLine, Picked;
      LatestPicked(lines, names, key, numeric, k + 1);
      NoneFromStep(lines, names, key, numeric, k);
      PickedStep(lines, names, k);
      LastLineCons(Strip(lines[k]), Picked(lines, names, k + 1), key, numeric);
      if Within(lines, k, names) && Sets(Strip(lines[k]), key, numeric) && NoneFrom(lines, names, key, numeric, k + 1) {
        LatestIs(lines, names, key, numeric, k);
      }
    }
  }

  /** The readers keep the latest line. */
  lemma LastLineMeaning(lines: seq<string>, names: set<string>, key: string, numeric: bool)
    ensures var r := LastLine(Body(lines, names, false), key, numeric);
            && (r.None? ==> forall i :: Within(lines, i, names) ==> !Sets(Strip(lines[i]), key, numeric))
            && (r.Some? ==> exists i :: Latest(lines, names, key, numeric, i) && r.value == Strip(lines[i]))
  {
    BodyMeaning(lines, names);
    LatestPicked(lines, names, key, numeric, 0);
  }

  lemma SetsText(raw: string, key: string)
    ensures Sets(Strip(raw), key, false) ==> Says(raw, key, ValueOf(Strip(raw)))
    ensures !Sets(Strip(raw), key, false) ==> forall v :: !Says(raw, key, v)
  {
    hide Says, HasKey, ValueOf;
    forall v
      ensures Says(raw, key, v) <==> HasKey(Strip(raw), key) && ValueOf(Strip(raw)) == v
    {
      SaysMeaning(raw, key, v);
    }
  }

  lemma SetsNumber(raw: string, key: string)
    ensures Sets(Strip(raw), key, true) ==>
              LeadingNat(ValueOf(Strip(raw))).Some? && SaysNumber(raw, key, LeadingNat(ValueOf(Strip(raw))).value)
    ensures !Sets(Strip(raw), key, true) ==> forall n :: !SaysNumber(raw, key, n)
  {
    hide Says, HasKey, ValueOf, LeadingNat, StartsWith;
    var value := ValueOf(Strip(raw));
    forall v
      ensures Says(raw, key, v) <==> HasKey(Strip(raw), key) && value == v
    {
      SaysMeaning(raw, key, v);
    }
    forall n: nat
      ensures StartsWith(value, n) <==> LeadingNat(value) == Some(n)
    {
      StartsWithMeaning(value, n);
    }
  }

  /** The value of the line a reader keeps is the latest one. */
  lemma LatestTextFound(lines: seq<string>, names: set<string>, key: string)
    ensures var r := LastLine(Body(lines, names, false), key, false);
            LatestText(lines, names, key, if r.Some? then Some(ValueOf(r.value)) else None)
  {
    hide Says, Inside, IsHeader, Strip, ValueOf, Sets, Body, LastLine;
    LastLineMeaning(lines, names, key, false);
    forall i | 0 <= i < |lines|
      ensures Sets(Strip(lines[i]), key, false) ==> Says(lines[i], key, ValueOf(Strip(lines[i])))
      ensures !Sets(Strip(lines[i]), key, false) ==> forall v :: !Says(lines[i], key, v)
    {
      SetsText(lines[i], key);
    }
  }

  lemma LatestNumberFound(lines: seq<string>, names: set<string>, key: string)
    ensures var r := LastLine(Body(lines, names, false), key, true);
            LatestNumber(lines, names, key, if r.Some? then LeadingNat(ValueOf(r.value)) else None)
  {
    hide SaysNumber, Inside, IsHeader, Strip, ValueOf, HasKey, Body, LastLine, LeadingNat;
    LastLineMeaning(lines, names, key, true);
    forall i | 0 <= i < |lines|
      ensures Sets(Strip(lines[i]), key, true) ==>
                LeadingNat(ValueOf(Strip(lines[i]))).Some? && SaysNumber(lines[i], key, LeadingNat(ValueOf(Strip(lines[i]))).value)
      ensures !Sets(Strip(lines[i]), key, true) ==> forall n :: !SaysNumber(lines[i], key, n)
    {
      SetsNumber(lines[i], key);
    }
  }

  // ---------------------------------------------------------------------------
  // The readers
  // ---------------------------------------------------------------------------

  /** A text setting: the value of its latest line, or the default. */
  ghost predicate TextSetting(lines: seq<string>, names: set<string>, key: string, default: string, t: string) {
    LatestText(lines, names, key, Some(t)) || (LatestText(lines, names, key, None) && t == default)
  }

  /** A number: what its latest numeric line starts with, or the default. */
  ghost predicate NumberSetting(lines: seq<string>, names: set<string>, key: string, default: nat, n: nat) {
    LatestNumber(lines, names, key, Some(n)) || (LatestNumber(lines, names, key, None) && n == default)
  }

  /** A whole number: the value of the latest line if that is all digits, a fallback if it is
      not, or the default if there is no such line. */
  ghost predicate WholeSetting(
      lines: seq<string>, names: set<string>, key: string, fallback: nat, default: nat, n: nat)
  {
    || (LatestText(lines, names, key, None) && n == default)
    || exists v :: LatestText(lines, names, key, Some(v)) && n == if v != "" && AllDigits(v) then ParseNat(v) else fallback
  }

  lemma SettingsFound(lines: seq<string>, names: set<string>, key: string, t: string, fallback: nat, d: nat)
    ensures TextSetting(lines, names, key, t, TextIn(Body(lines, names, false), key, t))
    ensures NumberSetting(lines, names, key, d, NumberIn(Body(lines, names, false), key, d))
    ensures WholeSetting(lines, names, key, fallback, d, WholeIn(Body(lines, names, false), key, fallback, d))
  {
    hide LatestText, LatestNumber, Body, LastLine, ParseNat, ValueOf, LeadingNat, AllDigits;
    LatestTextFound(lines, names, key);
    LatestNumberFound(lines, names, key);
  }

  /** The limits are read from all `[pppoe]` sections, the session timeout from `[common]`
      and `[general]`. */
  lemma LimitsMeaning(lines: seq<string>)
    ensures var r := CL.ReadLimits(lines);
            && NumberSetting(lines, {"[pppoe]"}, "max-sessions", 0, r.maxSessions)
            && NumberSetting(lines, {"[pppoe]"}, "max-starting", 0, r.maxStarting)
            && NumberSetting(lines, {"[common]", "[general]"}, "session-timeout", 0, r.sessionTimeout)
  {
    hide NumberSetting, NumberIn, Body;
    SettingsFound(lines, {"[pppoe]"}, "max-sessions", "", 0, 0);
    SettingsFound(lines, {"[pppoe]"}, "max-starting", "", 0, 0);
    SettingsFound(lines, {"[common]", "[general]"}, "session-timeout", "", 0, 0);
  }

  lemma DelayMeaning(lines: seq<string>)
    ensures var r := PadoDelay.ReadDelay(lines);
            && NumberSetting(lines, {"[pppoe]"}, "pado-delay", 0, r.delay)
            && NumberSetting(lines, {"[pppoe]"}, "pado-delay-sessions", 0, r.minSessions)
  {
    hide NumberSetting, NumberIn, Body;
    SettingsFound(lines, {"[pppoe]"}, "pado-delay", "", 0, 0);
    SettingsFound(lines, {"[pppoe]"}, "pado-delay-sessions", "", 0, 0);
  }

  lemma RuntimeMeaning(lines: seq<string>)
    ensures var r := PppoeRuntime.ReadRuntime(lines);
            && TextSetting(lines, {"[pppoe]"}, "service-name", "", r.serviceName)
            && TextSetting(lines, {"[pppoe]"}, "ac-name", "", r.acName)
            && WholeSetting(lines, {"[pppoe]"}, "verbose", 0, 0, r.verbose)
  {
    hide TextSetting, WholeSetting, TextIn, WholeIn, Body;
    SettingsFound(lines, {"[pppoe]"}, "service-name", "", 0, 0);
    SettingsFound(lines, {"[pppoe]"}, "ac-name", "", 0, 0);
    SettingsFound(lines, {"[pppoe]"}, "verbose", "", 0, 0);
  }

  lemma RadiusMeaning(lines: seq<string>)
    ensures var r := ReadRadius(lines);
            && TextSetting(lines, {"[radius]"}, "nas-identifier", "", r.nasIdentifier)
            && TextSetting(lines, {"[radius]"}, "nas-ip-address", "", r.nasIpAddress)
            && TextSetting(lines, {"[radius]"}, "gw-ip-address", "", r.gwIpAddress)
            && WholeSetting(lines, {"[radius]"}, "timeout", 3, 3, r.timeout)
            && WholeSetting(lines, {"[radius]"}, "max-try", 3, 3, r.maxTry)
            && WholeSetting(lines, {"[radius]"}, "acct-timeout", 0, 0, r.acctTimeout)
  {
    hide TextSetting, WholeSetting, TextIn, WholeIn, Body, Servers;
    SettingsFound(lines, {"[radius]"}, "nas-identifier", "", 3, 3);
    SettingsFound(lines, {"[radius]"}, "nas-ip-address", "", 3, 3);
    SettingsFound(lines, {"[radius]"}, "gw-ip-address", "", 3, 3);
    SettingsFound(lines, {"[radius]"}, "timeout", "", 3, 3);
    SettingsFound(lines, {"[radius]"}, "max-try", "", 3, 3);
    SettingsFound(lines, {"[radius]"}, "acct-timeout", "", 0, 0);
  }
}
