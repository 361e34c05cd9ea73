/** The RADIUS blocks of `show stat`, told from the lines: one block for each header, with the
    latest value of every field that its own lines give. */
module StatRadius {
  import opened Text
  import opened StatScan
  import opened StatMeaning

  // ---------------------------------------------------------------------------
  // Headers and fields
  // ---------------------------------------------------------------------------

  /** A line at the margin that starts a RADIUS block. */
  predicate RadiusLine(raw: string) {
    AtMargin(raw) && "radius(" <= Strip(raw)
  }

  /** The server a header names: `radius(id, address):`, without the address if there is no
      comma. */
  ghost predicate HeaderSays(raw: string, id: string, address: string) {
    exists inner, rest ::
      Strip(raw) == "radius(" + inner + [')'] + rest && ')' !in inner
      && (|| (',' !in inner && id == Strip(inner) && address == "")
          || exists a, b, c :: inner == a + [','] + b && ',' !in a && id == Strip(a) && UpTo(b, ',', c) && address == Strip(c))
  }

  /** The labels of a RADIUS block that stand for one number. */
  predicate RadiusLabel(key: string, field: string) {
    || (key == "fail count" && field == "fail_count")
    || (key == "request count" && field == "request_count")
    || (key == "queue length" && field == "queue_length")
    || (key == "auth sent" && field == "auth_sent")
    || (key == "acct sent" && field == "acct_sent")
    || (key == "interim sent" && field == "interim_sent")
  }

  function LostLabel(p: string): string {
    p + " lost(total/5m/1m)"
  }

  function AverageLabel(p: string): string {
    p + " avg query time(5m/1m)"
  }

  /** Which of the three numbers a field stands for. */
  ghost predicate OneOfThree(p: string, x: string, y: string, z: string, field: string, v: Value) {
    || (field == p + "_lost_total" && IsNumber(x, v))
    || (field == p + "_lost_5m" && IsNumber(y, v))
    || (field == p + "_lost_1m" && IsNumber(z, v))
  }

  /** `x/y/z` after one of the three lost labels. */
  ghost predicate LostGives(prefix: string, key: string, text: string, field: string, v: Value) {
    key == LostLabel(prefix)
    && exists x, y, z ::
         text == x + ['/'] + y + ['/'] + z && '/' !in x && '/' !in y && '/' !in z
         && OneOfThree(prefix, x, y, z, field, v)
  }

  /** `x/y`, with or without a unit, after one of the three average labels. */
  ghost predicate AverageGives(prefix: string, key: string, text: string, field: string, v: Value) {
    key == AverageLabel(prefix)
    && exists x, y ::
         Strip(WithoutMs(text)) == x + ['/'] + y && '/' !in x && '/' !in y
         && (|| (field == prefix + "_avg_query_time_5m" && IsNumber(x, v))
             || (field == prefix + "_avg_query_time_1m" && IsNumber(y, v)))
  }

  ghost predicate FieldGives(key: string, text: string, field: string, v: Value) {
    || (key == "state" && field == "state" && v == TextOf(text))
    || (RadiusLabel(key, field) && IsNumber(text, v))
    || LostGives("auth", key, text, field, v) || LostGives("acct", key, text, field, v) || LostGives("interim", key, text, field, v)
    || AverageGives("auth", key, text, field, v) || AverageGives("acct", key, text, field, v)
    || AverageGives("interim", key, text, field, v)
  }

  lemma UnitStep(s: string)
    ensures |s| >= 2 && s[0] == 'm' && s[1] == 's' ==> WithoutMs(s) == WithoutMs(s[2..])
    ensures |s| >= 1 && !(|s| >= 2 && s[0] == 'm' && s[1] == 's') ==> WithoutMs(s) == [s[0]] + WithoutMs(s[1..])
    ensures s == "" ==> WithoutMs(s) == ""
  {
    assert "ms" == ['m', 's'];
    assert |s| >= 2 ==> s[..2] == [s[0], s[1]];
  }

  /** The text before the first unit stays, the unit goes, and so on behind it; a text without
      a unit stays as it is. */
  lemma {:induction false} UnitDropped(a: string, b: string)
    requires forall i :: 0 <= i < |a| - 1 && a[i] == 'm' ==> a[i + 1] != 's'
    ensures WithoutMs(a + ['m', 's'] + b) == a + WithoutMs(b)
    ensures WithoutMs(a) == a
  {
    hide WithoutMs;
    var s := a + ['m', 's'] + b;
    UnitStep(s);
    UnitStep(a);
    if a == "" {
      assert s[2..] == b && a + WithoutMs(b) == WithoutMs(b);
    } else {
      var rest := a[1..];
      assert s[1..] == rest + ['m', 's'] + b;
      assert forall i :: 0 <= i < |rest| ==> rest[i] == a[i + 1];
      UnitDropped(rest, b);
      assert [a[0]] + (rest + WithoutMs(b)) == a + WithoutMs(b);
      assert [a[0]] + rest == a;
    }
  }

  /** What a block holds under a field. */
  function Look(rad: Block, field: string): Option<Value> {
    if field in rad then Some(rad[field]) else None
  }

  /** The compound labels: no two are equal, and none is a plain label. */
  lemma LabelsDiffer()
    ensures LostLabel("auth") != LostLabel("acct") && LostLabel("auth") != LostLabel("interim")
    ensures LostLabel("acct") != LostLabel("interim")
    ensures AverageLabel("auth") != AverageLabel("acct") && AverageLabel("auth") != AverageLabel("interim")
    ensures AverageLabel("acct") != AverageLabel("interim")
    ensures LostLabel("auth") != AverageLabel("auth") && LostLabel("auth") != AverageLabel("acct")
    ensures LostLabel("auth") != AverageLabel("interim") && LostLabel("acct") != AverageLabel("auth")
    ensures LostLabel("acct") != AverageLabel("acct") && LostLabel("acct") != AverageLabel("interim")
    ensures LostLabel("interim") != AverageLabel("auth") && LostLabel("interim") != AverageLabel("acct")
    ensures LostLabel("interim") != AverageLabel("interim")
    ensures Compound(LostLabel("auth")) && Compound(LostLabel("acct")) && Compound(LostLabel("interim"))
    ensures Compound(AverageLabel("auth")) && Compound(AverageLabel("acct")) && Compound(AverageLabel("interim"))
  {
    LostChars("auth");
    LostChars("acct");
    LostChars("interim");
    assert "auth"[0] == 'a' && "auth"[1] == 'u' && "acct"[0] == 'a' && "acct"[1] == 'c' && "interim"[0] == 'i';
  }

  lemma LostChars(p: string)
    ensures var x, y, n := LostLabel(p), AverageLabel(p), |p|;
            && x[n + 1] == 'l' && y[n + 1] == 'a' && x[|x| - 1] == ')' && y[|y| - 1] == ')'
            && forall i :: 0 <= i < n ==> x[i] == y[i] == p[i]
  {
    var x, y, n := LostLabel(p), AverageLabel(p), |p|;
    assert x[n + 1] == " lost(total/5m/1m)"[1] && y[n + 1] == " avg query time(5m/1m)"[1];
    assert x[n + 17] == " lost(total/5m/1m)"[17] && y[n + 21] == " avg query time(5m/1m)"[21];
  }

  predicate Compound(key: string) {
    key != "" && key[|key| - 1] == ')'
  }

  lemma CompoundIsNotPlain(key: string)
    requires Compound(key)
    ensures key != "state" && key !in RADIUS_KEYS
  {
    assert "state"[4] == 'e' && "fail count"[9] == 't' && "request count"[12] == 't' && "queue length"[11] == 'h';
    assert "auth sent"[8] == 't' && "acct sent"[8] == 't' && "interim sent"[11] == 't';
  }

  lemma PlainLabels(key: string, field: string)
    ensures RadiusLabel(key, field) <==> key in RADIUS_KEYS && RADIUS_KEYS[key] == field
    ensures "state" !in RADIUS_KEYS
  {
    assert "state"[0] == 's' && "fail count"[0] == 'f' && "request count"[0] == 'r' && "queue length"[0] == 'q';
    assert "auth sent"[0] == 'a' && "auth sent"[1] == 'u' && "acct sent"[0] == 'a' && "acct sent"[1] == 'c' && "interim sent"[0] == 'i';
  }

  lemma FieldNamesDiffer(p: string)
    ensures p + "_lost_total" != p + "_lost_5m" && p + "_lost_total" != p + "_lost_1m" && p + "_lost_5m" != p + "_lost_1m"
    ensures p + "_avg_query_time_5m" != p + "_avg_query_time_1m"
  {
    var n := |p|;
    assert (p + "_lost_total")[n + 6] == 't' && (p + "_lost_5m")[n + 6] == '5' && (p + "_lost_1m")[n + 6] == '1';
    assert (p + "_avg_query_time_5m")[n + 16] == '5' && (p + "_avg_query_time_1m")[n + 16] == '1';
  }

  /** The text a lost entry gives to a field, before it is read as a number. */
  function LostText(p: string, text: string, field: string): Option<string> {
    var parts := Split(text, '/');
    if |parts| != 3 then None
    else if field == p + "_lost_total" then Some(parts[0])
    else if field == p + "_lost_5m" then Some(parts[1])
    else if field == p + "_lost_1m" then Some(parts[2])
    else None
  }

  function AverageText(p: string, text: string, field: string): Option<string> {
    var parts := Split(Strip(WithoutMs(text)), '/');
    if |parts| != 2 then None
    else if field == p + "_avg_query_time_5m" then Some(parts[0])
    else if field == p + "_avg_query_time_1m" then Some(parts[1])
    else None
  }

  lemma ThreePieces(s: string, x: string, y: string, z: string, c: char)
    ensures Split(s, c) == [x, y, z] <==> s == x + [c] + y + [c] + z && c !in x && c !in y && c !in z
  {
    SplitMeaning(s, c, [x, y, z]);
    assert [x, y, z][1..] == [y, z] && [y, z][1..] == [z];
    assert Joined([y, z], c) == y + [c] + z;
    assert x + [c] + (y + [c] + z) == x + [c] + y + [c] + z;
  }

  lemma OneOfThreeText(p: string, text: string, x: string, y: string, z: string, field: string, v: Value)
    requires Split(text, '/') == [x, y, z]
    ensures OneOfThree(p, x, y, z, field, v) <==> LostText(p, text, field).Some? && IsNumber(LostText(p, text, field).value, v)
  {
    hide Split, IsNumber;
    FieldNamesDiffer(p);
  }

  lemma LostGivesIff(p: string, key: string, text: string, field: string, v: Value)
    ensures LostGives(p, key, text, field, v) <==>
            key == LostLabel(p) && LostText(p, text, field).Some? && IsNumber(LostText(p, text, field).value, v)
  {
    hide Split, IsNumber, LostLabel, OneOfThree;
    var parts := Split(text, '/');
    if x, y, z :|
      text == x + ['/'] + y + ['/'] + z && '/' !in x && '/' !in y && '/' !in z && OneOfThree(p, x, y, z, field, v)
    {
      ThreePieces(text, x, y, z, '/');
      OneOfThreeText(p, text, x, y, z, field, v);
    }
    if |parts| == 3 {
      assert parts == [parts[0], parts[1], parts[2]];
      ThreePieces(text, parts[0], parts[1], parts[2], '/');
      OneOfThreeText(p, text, parts[0], parts[1], parts[2], field, v);
    }
  }

  lemma AverageGivesIff(p: string, key: string, text: string, field: string, v: Value)
    ensures AverageGives(p, key, text, field, v) <==>
            key == AverageLabel(p) && AverageText(p, text, field).Some? && IsNumber(AverageText(p, text, field).value, v)
  {
    hide Split, IsNumber, Strip, WithoutMs;
    FieldNamesDiffer(p);
    var clean := Strip(WithoutMs(text));
    var parts := Split(clean, '/');
    forall x, y
      ensures clean == x + ['/'] + y && '/' !in x && '/' !in y <==> parts == [x, y]
    {
      TwoPieces(clean, x, y, '/');
    }
    if |parts| == 2 {
      assert parts == [parts[0], parts[1]];
    }
  }

  /** What a lost entry does to a block. */
  function LostInto(rad: Block, p: string, text: string): Block {
    var parts := Split(text, '/');
    if |parts| == 3 then
      SetField(SetField(SetField(rad, p + "_lost_total", parts[0]), p + "_lost_5m", parts[1]), p + "_lost_1m", parts[2])
    else rad
  }

  function AverageInto(rad: Block, p: string, text: string): Block {
    var parts := Split(Strip(WithoutMs(text)), '/');
    if |parts| == 2 then SetField(SetField(rad, p + "_avg_query_time_5m", parts[0]), p + "_avg_query_time_1m", parts[1]) else rad
  }

  lemma PrefixStep(rad: Block, key: string, text: string, p: string, rest: seq<string>)
    ensures WithLost(rad, key, text, [p] + rest) ==
            if key == LostLabel(p) then LostInto(rad, p, text) else WithLost(rad, key, text, rest)
    ensures WithAverage(rad, key, text, [p] + rest) ==
            if key == AverageLabel(p) then AverageInto(rad, p, text) else WithAverage(rad, key, text, rest)
  {
    hide Split, SetField, Strip, WithoutMs;
    assert ([p] + rest)[0] == p && ([p] + rest)[1..] == rest;
  }

  lemma PrefixesInOrder(rad: Block, key: string, text: string)
    ensures WithLost(rad, key, text, PREFIXES) ==
            if key == LostLabel("auth") then LostInto(rad, "auth", text)
            else if key == LostLabel("acct") then LostInto(rad, "acct", text)
            else if key == LostLabel("interim") then LostInto(rad, "interim", text)
            else rad
    ensures WithAverage(rad, key, text, PREFIXES) ==
            if key == AverageLabel("auth") then AverageInto(rad, "auth", text)
            else if key == AverageLabel("acct") then AverageInto(rad, "acct", text)
            else if key == AverageLabel("interim") then AverageInto(rad, "interim", text)
            else rad
  {
    hide LostInto, AverageInto, LostLabel, AverageLabel;
    PrefixStep(rad, key, text, "auth", ["acct", "interim"]);
    PrefixStep(rad, key, text, "acct", ["interim"]);
    PrefixStep(rad, key, text, "interim", []);
    assert ["auth"] + ["acct", "interim"] == PREFIXES;
    assert ["acct"] + ["interim"] == ["acct", "interim"];
    assert ["interim"] + [] == ["interim"];
    assert WithLost(rad, key, text, []) == rad && WithAverage(rad, key, text, []) == rad;
  }

  lemma LookSet(rad: Block, name: string, text: string, field: string)
    ensures Look(SetField(rad, name, text), field) ==
            if field == name && ParseInt(text).Some? then Some(Number(ParseInt(text).value)) else Look(rad, field)
  {
    hide ParseInt;
  }

  /** A number replaces what was there, and anything else leaves it. */
  function Replaced(text: Option<string>, old_: Option<Value>): Option<Value> {
    if text.Some? && ParseInt(text.value).Some? then Some(Number(ParseInt(text.value).value)) else old_
  }

  lemma LostLook(rad: Block, p: string, text: string, field: string)
    ensures Look(LostInto(rad, p, text), field) == Replaced(LostText(p, text, field), Look(rad, field))
  {
    hide Split, SetField, ParseInt, Look;
    FieldNamesDiffer(p);
    var parts := Split(text, '/');
    if |parts| == 3 {
      var a := SetField(rad, p + "_lost_total", parts[0]);
      var b := SetField(a, p + "_lost_5m", parts[1]);
      LookSet(rad, p + "_lost_total", parts[0], field);
      LookSet(a, p + "_lost_5m", parts[1], field);
      LookSet(b, p + "_lost_1m", parts[2], field);
    }
  }

  lemma AverageLook(rad: Block, p: string, text: string, field: string)
    ensures Look(AverageInto(rad, p, text), field) == Replaced(AverageText(p, text, field), Look(rad, field))
  {
    hide Split, SetField, ParseInt, Look, Strip, WithoutMs;
    FieldNamesDiffer(p);
    var parts := Split(Strip(WithoutMs(text)), '/');
    if |parts| == 2 {
      var a := SetField(rad, p + "_avg_query_time_5m", parts[0]);
      LookSet(rad, p + "_avg_query_time_5m", parts[0], field);
      LookSet(a, p + "_avg_query_time_1m", parts[1], field);
    }
  }

  /** The text an entry gives to a field as a number. */
  function FieldText(key: string, val: string, field: string): Option<string> {
    if key in RADIUS_KEYS then if RADIUS_KEYS[key] == field then Some(val) else None
    else if key == LostLabel("auth") then LostText("auth", val, field)
    else if key == LostLabel("acct") then LostText("acct", val, field)
    else if key == LostLabel("interim") then LostText("interim", val, field)
    else if key == AverageLabel("auth") then AverageText("auth", val, field)
    else if key == AverageLabel("acct") then AverageText("acct", val, field)
    else if key == AverageLabel("interim") then AverageText("interim", val, field)
    else None
  }

  lemma FieldGivesIff(key: string, val: string, field: string, v: Value)
    ensures FieldGives(key, val, field, v) <==>
            if key == "state" then field == "state" && v == TextOf(val)
            else FieldText(key, val, field).Some? && IsNumber(FieldText(key, val, field).value, v)
  {
    hide LostText, AverageText, IsNumber, LostGives, AverageGives, RadiusLabel, LostLabel, AverageLabel;
    PlainLabels(key, field);
    LostGivesIff("auth", key, val, field, v);
    LostGivesIff("acct", key, val, field, v);
    LostGivesIff("interim", key, val, field, v);
    AverageGivesIff("auth", key, val, field, v);
    AverageGivesIff("acct", key, val, field, v);
    AverageGivesIff("interim", key, val, field, v);
    LabelsDiffer();
    if Compound(key) {
      CompoundIsNotPlain(key);
    }
  }

  lemma FieldGiven(rad: Block, key: string, val: string, field: string)
    ensures Look(WithRadius(rad, key, val), field) ==
            if key == "state" then if field == "state" then Some(TextOf(val)) else Look(rad, field)
            else Replaced(FieldText(key, val, field), Look(rad, field))
  {
    hide LostText, AverageText, LostInto, AverageInto, WithLost, WithAverage, ParseInt, SetField, LostLabel, AverageLabel;
    PlainLabels(key, field);
    if key == "state" {
    } else if key in RADIUS_KEYS {
      LookSet(rad, RADIUS_KEYS[key], val, field);
    } else {
      var lost := WithLost(rad, key, val, PREFIXES);
      PrefixesInOrder(rad, key, val);
      PrefixesInOrder(lost, key, val);
      LabelsDiffer();
      LostLook(rad, "auth", val, field);
      LostLook(rad, "acct", val, field);
      LostLook(rad, "interim", val, field);
      AverageLook(rad, "auth", val, field);
      AverageLook(rad, "acct", val, field);
      AverageLook(rad, "interim", val, field);
    }
  }

  /** Line `i` belongs to the block of the header at `h` and gives the field. */
  ghost predicate GivesField(lines: seq<string>, h: int, i: int, field: string, v: Value) {
    && 0 <= h < i < |lines| && Indented(lines[i]) && (forall j :: h < j < i ==> !AtMargin(lines[j]))
    && exists key, t :: Entry(lines[i], key, t) && FieldGives(key, t, field, v)
  }

  /** The latest line before `k` of the block that gives the field gives this value. */
  ghost predicate LatestField(lines: seq<string>, h: int, k: int, field: string, found: Option<Value>) {
    match found
    case None => forall i, v :: i < k ==> !GivesField(lines, h, i, field, v)
    case Some(x) => exists i :: i < k && GivesField(lines, h, i, field, x) && forall j, v :: i < j < k ==> !GivesField(lines, h, j, field, v)
  }

  /** The block of the header at `h`: the server it names, and the latest value of each other
      field that a line of the block gives. */
  ghost predicate BlockReport(lines: seq<string>, h: int, b: Block) {
    && 0 <= h < |lines|
    && "server_id" in b && b["server_id"].TextOf? && "server_address" in b && b["server_address"].TextOf?
    && HeaderSays(lines[h], b["server_id"].text, b["server_address"].text)
    && forall field :: field != "server_id" && field != "server_address" ==> LatestField(lines, h, |lines|, field, Look(b, field))
  }

  function HeadersBefore(lines: seq<string>, k: nat): (n: nat)
    requires k <= |lines|
    ensures n <= k
  {
    if k == 0 then 0 else HeadersBefore(lines, k - 1) + if RadiusLine(lines[k - 1]) then 1 else 0
  }

  /** One block for each header, in order. */
  ghost predicate RadiusReport(lines: seq<string>, blocks: seq<Block>) {
    && |blocks| == HeadersBefore(lines, |lines|)
    && forall h {:trigger RadiusLine(lines[h])} ::
         0 <= h < |lines| && RadiusLine(lines[h]) ==>
           HeadersBefore(lines, h) < |blocks| && BlockReport(lines, h, blocks[HeadersBefore(lines, h)])
  }

  lemma ParenPositions(s: string)
    requires "radius(" <= s
    ensures Find(s, '(') == 6 && Find(s, ')') >= 7
    ensures ')' in s <==> Find(s, ')') < |s|
  {
    var front := "radius(";
    assert front == s[..7];
    assert s[6] == front[6] == '(' && forall i :: 0 <= i < 6 ==> s[i] == front[i] && front[i] != '(';
    assert forall i :: 0 <= i < 7 ==> s[i] == front[i] && front[i] != ')';
  }

  /** The two texts the header gives, and the text between its parentheses. */
  lemma HeaderTexts(s: string) returns (inner: string, rest: string, id: string, address: string)
    requires "radius(" <= s && ')' in s
    ensures s == "radius(" + inner + [')'] + rest && ')' !in inner
    ensures id == Strip(Split(inner, ',')[0])
    ensures address == if |Split(inner, ',')| >= 2 then Strip(Split(inner, ',')[1]) else ""
    ensures RadiusHeader(s) == Some(map["server_id" := TextOf(id), "server_address" := TextOf(address)])
  {
    hide Strip, Split, Find;
    ParenPositions(s);
    var close := Find(s, ')');
    inner, rest := s[7..close], s[close + 1..];
    id := Strip(Split(inner, ',')[0]);
    address := if |Split(inner, ',')| >= 2 then Strip(Split(inner, ',')[1]) else "";
    assert s[..7] == "radius(";
    assert s == s[..7] + inner + [s[close]] + rest;
  }

  lemma HeaderIff(raw: string)
    requires "radius(" <= Strip(raw)
    ensures RadiusHeader(Strip(raw)).Some? <==> ')' in Strip(raw)
    ensures RadiusHeader(Strip(raw)).Some? ==>
              var b := RadiusHeader(Strip(raw)).value;
              && "server_id" in b && b["server_id"].TextOf? && "server_address" in b && b["server_address"].TextOf?
              && HeaderSays(raw, b["server_id"].text, b["server_address"].text)
              && forall field :: field != "server_id" && field != "server_address" ==> Look(b, field) == None
  {
    hide Strip, Split, UpTo, Find;
    var s := Strip(raw);
    ParenPositions(s);
    if ')' in s {
      hide RadiusHeader;
      var inner, rest, id, address := HeaderTexts(s);
      assert "server_id" != "server_address" by { assert |"server_id"| != |"server_address"|; }
      InnerSays(inner);
      assert HeaderSays(raw, id, address);
    }
  }

  /** What is between the parentheses, cut at its commas. */
  lemma InnerSays(inner: string)
    ensures var parts := Split(inner, ',');
            var id, address := Strip(parts[0]), if |parts| >= 2 then Strip(parts[1]) else "";
            || (',' !in inner && id == Strip(inner) && address == "")
            || exists a, b, c :: inner == a + [','] + b && ',' !in a && id == Strip(a) && UpTo(b, ',', c) && address == Strip(c)
  {
    hide Strip, Split, UpTo;
    if ',' in inner {
      var n := Find(inner, ',');
      var a, b := inner[..n], inner[n + 1..];
      assert inner == a + [','] + b;
      SplitCons(a, ',', b);
      UpToIff(b, ',', Split(b, ',')[0]);
    } else {
      SplitOne(inner, ',');
    }
  }

  lemma LineGives(lines: seq<string>, h: int, k: int, field: string, v: Value)
    requires 0 <= h < k < |lines| && Indented(lines[k]) && forall j :: h < j < k ==> !AtMargin(lines[j])
    ensures var s := Strip(lines[k]);
            GivesField(lines, h, k, field, v) <==> ':' in s && FieldGives(KeyPart(s), AfterColon(s), field, v)
  {
    hide Strip, KeyPart, AfterColon, FieldGives, Entry, AtMargin, Indented;
    var s := Strip(lines[k]);
    forall key, t
      ensures Entry(lines[k], key, t) <==> ':' in s && KeyPart(s) == key && AfterColon(s) == t
    {
      EntryIff(lines[k], key, t);
    }
  }

  /** What a line of the block does to the block. */
  function FedBy(rad: Block, raw: string): Block {
    var s := Strip(raw);
    if !Blank(raw) && ':' in s then WithRadius(rad, KeyPart(s), AfterColon(s)) else rad
  }

  lemma FieldStep(lines: seq<string>, h: int, k: int, field: string, rad: Block)
    requires 0 <= h < k < |lines| && (forall j :: h < j <= k ==> !AtMargin(lines[j]))
    requires LatestField(lines, h, k, field, Look(rad, field))
    ensures LatestField(lines, h, k + 1, field, Look(FedBy(rad, lines[k]), field))
  {
    hide Strip, KeyPart, AfterColon, FieldGives, AtMargin, Indented, GivesField, WithRadius, Blank, TopLevel, Look, FieldText, IsNumber, ParseInt;
    var s, next := Strip(lines[k]), Look(FedBy(rad, lines[k]), field);
    LineKinds(lines[k]);
    if Indented(lines[k]) {
      forall v
        ensures GivesField(lines, h, k, field, v) <==> ':' in s && FieldGives(KeyPart(s), AfterColon(s), field, v)
      {
        LineGives(lines, h, k, field, v);
      }
      FieldMoves(rad, KeyPart(s), AfterColon(s), field);
    } else {
      forall v
        ensures !GivesField(lines, h, k, field, v)
      {
        OnlyIndented(lines, h, k, field, v);
      }
    }
    LatestFieldStep(lines, h, k, field, Look(rad, field), next);
  }

  lemma OnlyIndented(lines: seq<string>, h: int, k: int, field: string, v: Value)
    ensures GivesField(lines, h, k, field, v) ==>
              0 <= h < k < |lines| && Indented(lines[k]) && forall j :: h < j < k ==> !AtMargin(lines[j])
  {
    hide Entry, FieldGives, Indented, AtMargin;
  }

  lemma FieldMoves(rad: Block, key: string, val: string, field: string)
    ensures forall v :: FieldGives(key, val, field, v) ==> Look(WithRadius(rad, key, val), field) == Some(v)
    ensures (forall v :: !FieldGives(key, val, field, v)) ==> Look(WithRadius(rad, key, val), field) == Look(rad, field)
  {
    hide FieldGives, FieldText, ParseInt, WithRadius, Look;
    FieldGiven(rad, key, val, field);
    forall v
      ensures FieldGives(key, val, field, v) <==>
              if key == "state" then field == "state" && v == TextOf(val)
              else FieldText(key, val, field).Some? && IsNumber(FieldText(key, val, field).value, v)
    {
      FieldGivesIff(key, val, field, v);
    }
    if key == "state" {
      assert field == "state" ==> FieldGives(key, val, field, TextOf(val));
    } else {
      var t := FieldText(key, val, field);
      if t.Some? && ParseInt(t.value).Some? {
        assert FieldGives(key, val, field, Number(ParseInt(t.value).value));
      }
    }
  }

  lemma LatestFieldStep(lines: seq<string>, h: int, k: int, field: string, found: Option<Value>, next: Option<Value>)
    requires LatestField(lines, h, k, field, found)
    requires forall v :: GivesField(lines, h, k, field, v) ==> next == Some(v)
    requires (forall v :: !GivesField(lines, h, k, field, v)) ==> next == found
    ensures LatestField(lines, h, k + 1, field, next)
  {
    hide GivesField;
    if forall v :: !GivesField(lines, h, k, field, v) {
      if found.Some? {
        var i :| i < k && GivesField(lines, h, i, field, found.value)
                 && forall j, v :: i < j < k ==> !GivesField(lines, h, j, field, v);
        assert i < k + 1 && GivesField(lines, h, i, field, next.value);
        assert forall j, v :: i < j < k + 1 ==> !GivesField(lines, h, j, field, v);
      }
    } else {
      var v :| GivesField(lines, h, k, field, v);
      assert k < k + 1 && GivesField(lines, h, k, field, next.value);
    }
  }

  /** Nothing behind the next line at the margin belongs to the block. */
  lemma BlockOver(lines: seq<string>, h: int, k: int, field: string, found: Option<Value>)
    requires 0 <= h < k <= |lines| && (k == |lines| || AtMargin(lines[k])) && LatestField(lines, h, k, field, found)
    ensures LatestField(lines, h, |lines|, field, found)
  {
    hide GivesField, AtMargin, Indented;
    forall i, v | k <= i
      ensures !GivesField(lines, h, i, field, v)
    {
      OnlyIndented(lines, h, i, field, v);
      if k < |lines| {
        NotBoth(lines[k]);
      }
    }
    if found.Some? {
      var i :| i < k && GivesField(lines, h, i, field, found.value)
               && forall j, v :: i < j < k ==> !GivesField(lines, h, j, field, v);
      assert forall j, v :: i < j < |lines| ==> !GivesField(lines, h, j, field, v);
    }
  }

  lemma {:induction false} FeedFrom(lines: seq<string>, h: int, k: int, field: string, rad: Block)
    requires 0 <= h < k <= |lines| && (forall j :: h < j < k ==> !AtMargin(lines[j]))
    requires LatestField(lines, h, k, field, Look(rad, field))
    ensures LatestField(lines, h, |lines|, field, Look(Feed(rad, Following(lines[k..])), field))
    decreases |lines| - k
  {
    hide LatestField, Strip, KeyPart, AfterColon, WithRadius, Blank, TopLevel, AtMargin, Indented, Look;
    if k < |lines| {
      LineKinds(lines[k]);
      assert lines[k..][0] == lines[k] && lines[k..][1..] == lines[k + 1..];
    }
    if k == |lines| || AtMargin(lines[k]) {
      BlockOver(lines, h, k, field, Look(rad, field));
    } else {
      var rest := Following(lines[k + 1..]);
      assert ([lines[k]] + rest)[0] == lines[k] && ([lines[k]] + rest)[1..] == rest;
      FieldStep(lines, h, k, field, rad);
      FeedFrom(lines, h, k + 1, field, FedBy(rad, lines[k]));
    }
  }

  lemma NoServerField(p: string, text: string, field: string)
    requires field == "server_id" || field == "server_address"
    requires p != "" && p[0] != 's'
    ensures LostText(p, text, field) == None && AverageText(p, text, field) == None
  {
    hide Split, Strip, WithoutMs;
    assert "server_id"[0] == 's' && "server_address"[0] == 's';
    assert (p + "_lost_total")[0] == p[0] && (p + "_lost_5m")[0] == p[0] && (p + "_lost_1m")[0] == p[0];
    assert (p + "_avg_query_time_5m")[0] == p[0] && (p + "_avg_query_time_1m")[0] == p[0];
  }

  lemma NoPlainServer(key: string, field: string)
    requires field == "server_id" || field == "server_address"
    ensures !RadiusLabel(key, field) && field != "state"
  {
    assert "server_id"[0] == 's' && "server_address"[0] == 's' && "server_id"[1] == 'e' && "server_address"[1] == 'e';
    assert field[1] == 'e' && "state"[1] == 't' && field[0] == 's';
    assert "fail_count"[0] == 'f' && "request_count"[0] == 'r' && "queue_length"[0] == 'q';
    assert "auth_sent"[0] == 'a' && "acct_sent"[0] == 'a' && "interim_sent"[0] == 'i';
  }

  /** No line of a block changes the server it is about. */
  lemma ServerStays(rad: Block, key: string, val: string, field: string)
    requires field == "server_id" || field == "server_address"
    ensures Look(WithRadius(rad, key, val), field) == Look(rad, field)
  {
    hide WithRadius, Look, LostText, AverageText, LostLabel, AverageLabel, RadiusLabel, ParseInt;
    FieldGiven(rad, key, val, field);
    assert "auth"[0] == 'a' && "acct"[0] == 'a' && "interim"[0] == 'i';
    NoServerField("auth", val, field);
    NoServerField("acct", val, field);
    NoServerField("interim", val, field);
    PlainLabels(key, field);
    NoPlainServer(key, field);
  }

  lemma {:induction false} ServerKept(rad: Block, lines: seq<string>, field: string)
    requires field == "server_id" || field == "server_address"
    ensures Look(Feed(rad, lines), field) == Look(rad, field)
    decreases |lines|
  {
    hide Strip, KeyPart, AfterColon, WithRadius, Blank, Look;
    if lines != [] {
      var s := Strip(lines[0]);
      ServerStays(rad, KeyPart(s), AfterColon(s), field);
      ServerKept(FedBy(rad, lines[0]), lines[1..], field);
    }
  }

  lemma HeaderBlock(lines: seq<string>, h: int)
    requires 0 <= h < |lines| && RadiusLine(lines[h]) && RadiusHeader(Strip(lines[h])).Some?
    ensures BlockReport(lines, h, Feed(RadiusHeader(Strip(lines[h])).value, Following(lines[h + 1..])))
  {
    hide Strip, Feed, Following, HeaderSays, RadiusHeader, LatestField, AtMargin;
    var rad := RadiusHeader(Strip(lines[h])).value;
    var b := Feed(rad, Following(lines[h + 1..]));
    HeaderIff(lines[h]);
    ServerKept(rad, Following(lines[h + 1..]), "server_id");
    ServerKept(rad, Following(lines[h + 1..]), "server_address");
    forall field | field != "server_id" && field != "server_address"
      ensures LatestField(lines, h, |lines|, field, Look(b, field))
    {
      NothingBefore(lines, h, field);
      FeedFrom(lines, h, h + 1, field, rad);
    }
  }

  lemma NothingBefore(lines: seq<string>, h: int, field: string)
    ensures LatestField(lines, h, h + 1, field, None)
  {
    hide Entry, FieldGives, Indented, AtMargin;
    forall i, v | i < h + 1
      ensures !GivesField(lines, h, i, field, v)
    {
      OnlyIndented(lines, h, i, field, v);
    }
  }

  lemma {:induction false} BlocksFrom(lines: seq<string>, k: nat, h: int)
    requires k <= |lines| && (forall i :: k <= i < |lines| && RadiusLine(lines[i]) ==> RadiusHeader(Strip(lines[i])).Some?)
    ensures var blocks, n := RadiusBlocks(lines[k..]), HeadersBefore(lines, k);
            && |blocks| == HeadersBefore(lines, |lines|) - n
            && (k <= h < |lines| && RadiusLine(lines[h]) ==>
                  && n <= HeadersBefore(lines, h) < n + |blocks|
                  && BlockReport(lines, h, blocks[HeadersBefore(lines, h) - n]))
    decreases |lines| - k
  {
    hide Strip, Blank, TopLevel, AtMargin, Feed, Following, RadiusHeader, BlockReport, RadiusLine;
    if k < |lines| {
      var rest := RadiusBlocks(lines[k + 1..]);
      BlocksFrom(lines, k + 1, h);
      FirstBlock(lines, k);
      if RadiusLine(lines[k]) {
        HeaderBlock(lines, k);
        var blocks := RadiusBlocks(lines[k..]);
        assert forall i :: 1 <= i < |blocks| ==> blocks[i] == rest[i - 1];
      }
    }
  }

  lemma FirstBlock(lines: seq<string>, k: nat)
    requires k < |lines| && (RadiusLine(lines[k]) ==> RadiusHeader(Strip(lines[k])).Some?)
    ensures RadiusBlocks(lines[k..]) ==
            (if RadiusLine(lines[k]) then [Feed(RadiusHeader(Strip(lines[k])).value, Following(lines[k + 1..]))] else [])
            + RadiusBlocks(lines[k + 1..])
  {
    hide Strip, Blank, TopLevel, AtMargin, Feed, Following, RadiusHeader;
    assert lines[k..][0] == lines[k] && lines[k..][1..] == lines[k + 1..];
    LineKinds(lines[k]);
  }

  /** The extended parser fails exactly if some RADIUS header lacks its closing parenthesis;
      otherwise it lists one block for each header, in order, with the server the header
      names and the latest value of every field its own lines give. */
  lemma RadiusMeaning(lines: seq<string>)
    ensures ScanExtended(lines, START).failed <==> exists i :: 0 <= i < |lines| && RadiusLine(lines[i]) && ')' !in Strip(lines[i])
    ensures !ScanExtended(lines, START).failed ==> RadiusReport(lines, ScanExtended(lines, START).e.radius)
  {
    hide ScanExtended, RadiusBlocks, RadiusReport, RadiusLine, Strip, HeadersClosed;
    RadiusListed(lines);
    ClosedMeaning(lines);
    if HeadersClosed(lines) {
      AllBlocks(lines);
    }
  }

  lemma ClosedMeaning(lines: seq<string>)
    ensures HeadersClosed(lines) <==> !exists i :: 0 <= i < |lines| && RadiusLine(lines[i]) && ')' !in Strip(lines[i])
    ensures HeadersClosed(lines) ==> forall i :: 0 <= i < |lines| && RadiusLine(lines[i]) ==> RadiusHeader(Strip(lines[i])).Some?
  {
    hide Strip, RadiusHeader, RadiusLine, OpensRadius;
    forall i | 0 <= i < |lines|
      ensures RadiusLine(lines[i]) <==> OpensRadius(lines[i])
      ensures RadiusLine(lines[i]) ==> (RadiusHeader(Strip(lines[i])).Some? <==> ')' in Strip(lines[i]))
    {
      HeaderKinds(lines[i]);
    }
  }

  lemma HeaderKinds(raw: string)
    ensures RadiusLine(raw) <==> OpensRadius(raw)
    ensures RadiusLine(raw) ==> (RadiusHeader(Strip(raw)).Some? <==> ')' in Strip(raw))
  {
    hide Strip, RadiusHeader, AtMargin, Blank, TopLevel, HeaderSays, Look;
    LineKinds(raw);
    if RadiusLine(raw) {
      HeaderIff(raw);
    }
  }

  lemma NoneBefore(lines: seq<string>)
    ensures HeadersBefore(lines, 0) == 0
  {
  }

  lemma AllBlocks(lines: seq<string>)
    requires forall i :: 0 <= i < |lines| && RadiusLine(lines[i]) ==> RadiusHeader(Strip(lines[i])).Some?
    ensures RadiusReport(lines, RadiusBlocks(lines))
  {
    hide Strip, RadiusHeader, BlockReport, RadiusBlocks, RadiusLine, HeadersBefore;
    assert lines[0..] == lines;
    NoneBefore(lines);
    forall h | 0 <= h < |lines| && RadiusLine(lines[h])
      ensures HeadersBefore(lines, h) < |RadiusBlocks(lines)| && BlockReport(lines, h, RadiusBlocks(lines)[HeadersBefore(lines, h)])
    {
      BlocksFrom(lines, 0, h);
    }
    BlocksFrom(lines, 0, -1);
  }
}
