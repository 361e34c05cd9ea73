/** What `get_interface_limit` answers, told from the text of the file: the first plain line
    of the name decides, by the last of its `padi-limit` options. */
module InterfaceLookup {
  import opened Text
  import opened Patterns
  import opened Sections
  import opened KeyLines
  import opened SettingsMeaning
  import opened PppoeInterfaces
  import CL = ConnectionLimits
  import Readings

  // ---------------------------------------------------------------------------
  // Options
  // ---------------------------------------------------------------------------

  /** The option is `padi-limit = value`, with any blanks around the key. */
  ghost predicate LimitOption(option: string, value: string) {
    exists a :: Strip(option) == a + ['='] + value && '=' !in a && Strip(a) == "padi-limit"
  }

  lemma LimitOptionIff(option: string, value: string)
    ensures var o := Strip(option);
            LimitOption(option, value) <==>
            HasEq(o) && Strip(o[..Find(o, '=')]) == "padi-limit" && o[Find(o, '=') + 1..] == value
  {
    hide Strip;
    var o := Strip(option);
    if HasEq(o) && Strip(o[..Find(o, '=')]) == "padi-limit" && o[Find(o, '=') + 1..] == value {
      assert o == o[..Find(o, '=')] + ['='] + value;
    }
    if a :| o == a + ['='] + value && '=' !in a && Strip(a) == "padi-limit" {
      CutAt(o, a, value);
    }
  }

  /** Option `k` is the last `padi-limit`. */
  ghost predicate LastLimit(options: seq<string>, k: int, value: string) {
    && 0 <= k < |options| && LimitOption(options[k], value)
    && forall j, v :: k < j < |options| ==> !LimitOption(options[j], v)
  }

  ghost predicate NoLimit(options: seq<string>) {
    forall k, v :: 0 <= k < |options| ==> !LimitOption(options[k], v)
  }

  /** Some `padi-limit` is no number. */
  ghost predicate Malformed(options: seq<string>) {
    exists k, v :: 0 <= k < |options| && LimitOption(options[k], v) && ParseInt(v).None?
  }

  /** The first option and the others. */
  lemma OptionsRest(options: seq<string>)
    requires options != []
    ensures NoLimit(options) <==> (forall v :: !LimitOption(options[0], v)) && NoLimit(options[1..])
    ensures Malformed(options) <==>
            (exists v :: LimitOption(options[0], v) && ParseInt(v).None?) || Malformed(options[1..])
    ensures forall k, v :: LastLimit(options, k, v) <==>
                           if k == 0 then LimitOption(options[0], v) && NoLimit(options[1..])
                           else LastLimit(options[1..], k - 1, v)
  {
    hide LimitOption, ParseInt;
    var rest := options[1..];
    assert forall k :: 0 <= k < |rest| ==> rest[k] == options[k + 1];
    assert forall k :: 1 <= k < |options| ==> options[k] == rest[k - 1];
  }

  /** The scan fails exactly if some `padi-limit` is no number; otherwise it gives the number
      of the last one, or what it started from. */
  lemma {:induction false} OptionsMeaning(options: seq<string>, start: int)
    ensures var p := CL.PadiLimit(options, start);
            && (p.None? <==> Malformed(options))
            && (p.Some? && NoLimit(options) ==> p == Some(start))
            && (p.Some? ==> forall k, v :: LastLimit(options, k, v) ==> ParseInt(v) == p)
  {
    hide LimitOption, ParseInt, Strip, LastLimit, NoLimit, Malformed;
    if options == [] {
      NoOptions();
    } else {
      OptionsRest(options);
      var o := Strip(options[0]);
      forall v
        ensures LimitOption(options[0], v) <==>
                HasEq(o) && Strip(o[..Find(o, '=')]) == "padi-limit" && o[Find(o, '=') + 1..] == v
      {
        LimitOptionIff(options[0], v);
      }
      if HasEq(o) && Strip(o[..Find(o, '=')]) == "padi-limit" {
        var value := o[Find(o, '=') + 1..];
        assert LimitOption(options[0], value);
        if ParseInt(value).Some? {
          OptionsMeaning(options[1..], ParseInt(value).value);
        }
      } else {
        OptionsMeaning(options[1..], start);
      }
    }
  }

  lemma NoOptions()
    ensures NoLimit([]) && !Malformed([]) && forall k, v :: !LastLimit([], k, v)
  {
  }

  // ---------------------------------------------------------------------------
  // Lines
  // ---------------------------------------------------------------------------

  /** A plain line about the name: `interface=` in lower case and without blanks, then the
      name and the options, separated by commas. */
  ghost predicate PlainLine(raw: string, name: string, options: seq<string>) {
    exists first, value ::
      Strip(raw) == "interface=" + value && Strip(value) == Joined([first] + options, ',') && Strip(first) == name
      && forall p :: p in [first] + options ==> ',' !in p
  }

  lemma PlainLineIff(raw: string, name: string, options: seq<string>)
    ensures var line := Strip(raw);
            PlainLine(raw, name, options) <==>
            CL.PlainIface(line) && Strip(CL.IfaceParts(line)[0]) == name && CL.IfaceParts(line)[1..] == options
  {
    hide Strip, Joined, Split, HasEq;
    var line := Strip(raw);
    if CL.PlainIface(line) {
      var value := line[10..];
      assert line == "interface=" + value;
      PlainValue(line, value);
      var parts := Split(Strip(value), ',');
      SplitMeaning(Strip(value), ',', parts);
      assert parts == [parts[0]] + parts[1..];
      if parts[1..] == options && Strip(parts[0]) == name {
        assert PlainLine(raw, name, options);
      }
    }
    if PlainLine(raw, name, options) {
      var first, value :| line == "interface=" + value && Strip(value) == Joined([first] + options, ',')
                          && Strip(first) == name && forall p :: p in [first] + options ==> ',' !in p;
      PlainValue(line, value);
      SplitMeaning(Strip(value), ',', [first] + options);
      assert ([first] + options)[1..] == options;
    }
  }

  lemma PlainValue(line: string, value: string)
    requires line == "interface=" + value
    ensures CL.PlainIface(line) && ValueOf(line) == Strip(value)
  {
    hide Strip;
    var key := "interface";
    assert '=' !in key;
    assert line == key + ['='] + value;
    CutAt(line, key, value);
  }

  /** The first plain line about the name in the `[pppoe]` sections. */
  ghost predicate FirstLine(lines: seq<string>, name: string, i: int, options: seq<string>) {
    && Within(lines, i, {"[pppoe]"}) && PlainLine(lines[i], name, options)
    && forall j, o :: j < i && Within(lines, j, {"[pppoe]"}) ==> !PlainLine(lines[j], name, o)
  }

  ghost predicate NoLine(lines: seq<string>, name: string, from: int) {
    forall j, o :: from <= j && Within(lines, j, {"[pppoe]"}) ==> !PlainLine(lines[j], name, o)
  }

  /** What a line with these options answers. */
  ghost predicate Answers(options: seq<string>, r: CL.Lookup) {
    && (r.Malformed? <==> Malformed(options))
    && (r.Limit? ==>
          && r.value.found
          && (NoLimit(options) ==> r.value.padiLimit == 0)
          && forall k, v :: LastLimit(options, k, v) ==> ParseInt(v) == Some(r.value.padiLimit))
  }

  lemma LineAnswers(line: string, name: string)
    requires CL.PlainIface(line) && Strip(CL.IfaceParts(line)[0]) == name
    ensures Answers(CL.IfaceParts(line)[1..], CL.FindLimit([line], name))
  {
    hide Malformed, NoLimit, LastLimit, CL.PlainIface, CL.IfaceParts, Strip, CL.PadiLimit, ParseInt;
    CL.FindLimitHere(line, name);
    OptionsMeaning(CL.IfaceParts(line)[1..], 0);
  }

  lemma {:induction false} LookupFrom(lines: seq<string>, name: string, k: nat)
    requires k <= |lines| && forall j, o :: j < k && Within(lines, j, {"[pppoe]"}) ==> !PlainLine(lines[j], name, o)
    ensures var r := CL.FindLimit(Picked(lines, {"[pppoe]"}, k), name);
            || (NoLine(lines, name, k) && r == CL.Limit(CL.InterfaceLimit(0, false)))
            || exists i, options :: FirstLine(lines, name, i, options) && Answers(options, r)
    decreases |lines| - k
  {
    hide Inside, IsHeader, Strip, CL.PlainIface, CL.IfaceParts, CL.PadiLimit, PlainLine, Answers;
    var names := {"[pppoe]"};
    if k < |lines| {
      var line, rest := Strip(lines[k]), Picked(lines, names, k + 1);
      assert [] + rest == rest && ([line] + rest)[0] == line && ([line] + rest)[1..] == rest;
      forall o
        ensures PlainLine(lines[k], name, o) <==>
                CL.PlainIface(line) && Strip(CL.IfaceParts(line)[0]) == name && CL.IfaceParts(line)[1..] == o
      {
        PlainLineIff(lines[k], name, o);
      }
      if Within(lines, k, names) && CL.PlainIface(line) && Strip(CL.IfaceParts(line)[0]) == name {
        LineAnswers(line, name);
        assert FirstLine(lines, name, k, CL.IfaceParts(line)[1..]);
        assert CL.FindLimit([line] + rest, name) == CL.FindLimit([line], name);
      } else {
        LookupFrom(lines, name, k + 1);
      }
    }
  }

  /** For every file and name: without a plain line about the name nothing is found;
      otherwise the first such line answers, with the number of its last `padi-limit`, 0 if
      it has none, and an error exactly if some `padi-limit` of that line is no number. */
  lemma LookupMeaning(lines: seq<string>, name: string)
    ensures var r := CL.FindLimit(Body(lines, {"[pppoe]"}, false), name);
            || (NoLine(lines, name, 0) && r == CL.Limit(CL.InterfaceLimit(0, false)))
            || exists i, options :: FirstLine(lines, name, i, options) && Answers(options, r)
  {
    BodyMeaning(lines, {"[pppoe]"});
    LookupFrom(lines, name, 0);
  }

  // ---------------------------------------------------------------------------
  // Round trip
  // ---------------------------------------------------------------------------

  /** Lines that look the same to the lookup wherever the name occurs. */
  lemma {:induction false} OnlyLine(body: seq<string>, name: string, line: string)
    requires line in body && CL.PlainIface(line) && Strip(CL.IfaceParts(line)[0]) == name
    requires forall l :: l in body && CL.PlainIface(l) && Strip(CL.IfaceParts(l)[0]) == name ==> l == line
    ensures CL.FindLimit(body, name) == CL.FindLimit([line], name)
  {
    hide CL.PlainIface, CL.IfaceParts, CL.PadiLimit, Strip;
    assert body[0] in body;
    if body[0] != line {
      assert forall l :: l in body[1..] ==> l in body;
      OnlyLine(body[1..], name, line);
    }
  }

  /** The options of a canonical binding, between its commas. */
  function Pieces(b: Binding): seq<string> {
    if b.options == "" then [] else Split(b.options, ',')
  }

  lemma RenderedPieces(b: Binding)
    requires Canonical(b) && b.name != ""
    ensures Trimmed(Rendered(b)) && Split(Rendered(b), ',') == [b.name] + Pieces(b)
  {
    hide Split;
    if b.options == "" {
      assert Rendered(b) == b.name;
      SplitOne(b.name, ',');
    } else {
      assert Rendered(b) == b.name + [','] + b.options;
      SplitCons(b.name, ',', b.options);
    }
  }

  lemma RenderedParts(b: Binding)
    requires Canonical(b) && b.name != ""
    ensures var line := Strip(IFACE + "=" + Rendered(b));
            && CL.PlainIface(line) && Strip(CL.IfaceParts(line)[0]) == b.name && CL.IfaceParts(line)[1..] == Pieces(b)
  {
    hide Strip, Split, RStrip, HasKey, ValueOf, CL.PlainIface, Rendered, Pieces;
    IfaceKey();
    WrittenKeyLine(IFACE, Rendered(b));
    Readings.RenderedPlain(b);
    RenderedPieces(b);
    StripTrimmed(b.name);
    StripTrimmed(Rendered(b));
  }

  /** After a rebuild the options of a written binding answer for its name, if the name is
      written once and there is a section to write it in. */
  lemma RebuiltLimit(bs: seq<Binding>, lines: seq<string>, b: Binding)
    requires AllOnOneLine(bs) && b in bs && Canonical(b) && b.name != "" && HeaderCount(lines, PPPOE) > 0
    requires forall c :: c in bs && Normal(c).name == b.name ==> c == b
    ensures Answers(Pieces(b), CL.FindLimit(Body(Edit(InterfaceEditor(bs), lines), {PPPOE}, false), b.name))
  {
    hide Body, Strip, Matches, Edited, CL.PlainIface, CL.IfaceParts, CL.FindLimit, Orderly, Covers, AllOnOneLine, Rendered,
      ValueOf, BindingOf, Canonical, Pieces, Answers, HeaderCount;
    var e := InterfaceEditor(bs);
    var body, x := Body(Edit(e, lines), {PPPOE}, false), IFACE + "=" + Rendered(b);
    InterfaceEditorOrderly(bs);
    RenderedParts(b);
    var k :| 0 <= k < |bs| && bs[k] == b;
    assert RenderEach(bs)[k] == x && InterfaceSlot(bs) in e.slots;
    WrittenPresent(e, lines, false, {}, InterfaceSlot(bs), x);
    forall l | l in body && CL.PlainIface(l) && Strip(CL.IfaceParts(l)[0]) == b.name
      ensures l == Strip(x)
    {
      SameName(bs, lines, b, l);
    }
    OnlyLine(body, b.name, Strip(x));
    LineAnswers(Strip(x), b.name);
  }

  lemma SameName(bs: seq<Binding>, lines: seq<string>, b: Binding, l: string)
    requires AllOnOneLine(bs) && b.name != "" && forall c :: c in bs && Normal(c).name == b.name ==> c == b
    requires l in Body(Edit(InterfaceEditor(bs), lines), {PPPOE}, false)
    requires CL.PlainIface(l) && Strip(CL.IfaceParts(l)[0]) == b.name
    ensures l == Strip(IFACE + "=" + Rendered(b))
  {
    hide Body, Strip, Edited, CL.PlainIface, CL.IfaceParts, Orderly, Covers, Rendered, ValueOf, HasKey, BindingOf;
    var e := InterfaceEditor(bs);
    InterfaceEditorOrderly(bs);
    Readings.PlainHasKey(l);
    Readings.PlainName(l);
    InterfaceOwns(bs, l);
    OnlyWritten(e, lines, false, {}, l);
    assert SlotFor(e.slots, l).value == InterfaceSlot(bs);
    var xs := RenderEach(bs);
    var i :| 0 <= i < |xs| && StripEach(xs)[i] == l;
    RenderedLine(bs[i]);
  }

  lemma OneNumber(n: nat, r: CL.Lookup)
    requires Answers(["padi-limit=" + Decimal(n)], r)
    ensures r == CL.Limit(CL.InterfaceLimit(n, true))
  {
    hide Strip, ParseInt, Decimal;
    var option := "padi-limit=" + Decimal(n);
    var options := [option];
    PlainOption(n);
    IntOfDecimal(n);
    assert LastLimit(options, 0, Decimal(n));
    forall v | LimitOption(options[0], v)
      ensures v == Decimal(n)
    {
      LimitOptionIff(option, v);
      LimitOptionIff(option, Decimal(n));
    }
  }

  lemma PlainOption(n: nat)
    ensures var option := "padi-limit=" + Decimal(n);
            LimitOption(option, Decimal(n)) && Trimmed(option) && Split(option, ',') == [option]
  {
    hide Split, Strip, Decimal;
    var key, d := "padi-limit", Decimal(n);
    var option := "padi-limit=" + d;
    assert option == key + ['='] + d;
    assert '=' !in key && key[0] == 'p' && key[9] == 't';
    assert forall i :: 11 <= i < |option| ==> option[i] == d[i - 11] && IsDigit(d[i - 11]);
    assert forall i :: 0 <= i < 11 ==> option[i] == (key + "=")[i];
    assert option[0] == 'p' && Trimmed(option);
    assert ',' !in key + "=";
    assert ',' !in option;
    StripTrimmed(option);
    StripTrimmed(key);
    SplitOne(option, ',');
  }

  /** A limit that is written with an interface is the limit that is found. */
  lemma LimitRoundTrip(bs: seq<Binding>, lines: seq<string>, name: string, n: nat)
    requires AllOnOneLine(bs) && HeaderCount(lines, PPPOE) > 0
    requires name != "" && Trimmed(name) && ',' !in name && Binding(name, "padi-limit=" + Decimal(n)) in bs
    requires forall c :: c in bs && Normal(c).name == name ==> c == Binding(name, "padi-limit=" + Decimal(n))
    ensures CL.FindLimit(Body(Edit(InterfaceEditor(bs), lines), {PPPOE}, false), name)
            == CL.Limit(CL.InterfaceLimit(n, true))
  {
    hide Body, Edit, CL.FindLimit, Answers, AllOnOneLine, HeaderCount, Split, Decimal, Normal;
    PlainOption(n);
    var b := Binding(name, "padi-limit=" + Decimal(n));
    assert b.options[0] == 'p';
    assert Pieces(b) == ["padi-limit=" + Decimal(n)];
    RebuiltLimit(bs, lines, b);
    OneNumber(n, CL.FindLimit(Body(Edit(InterfaceEditor(bs), lines), {PPPOE}, false), name));
  }

  /** Adding an interface with a limit: for every file with a `[pppoe]` section and every new
      name, the lookup then finds that limit. */
  lemma AddedLimit(lines: seq<string>, name: string, n: nat)
    requires OneLineEach(lines) && HeaderCount(lines, PPPOE) > 0 && name != ""
    requires New(Binding(name, "padi-limit=" + Decimal(n)), ReadBindings(lines))
    ensures var bs := ReadBindings(lines) + [Binding(name, "padi-limit=" + Decimal(n))];
            CL.FindLimit(Body(Edit(InterfaceEditor(bs), lines), {PPPOE}, false), name)
            == CL.Limit(CL.InterfaceLimit(n, true))
  {
    hide Body, Edit, CL.FindLimit, ReadBindings, OneLineEach, HeaderCount, Rendered, Decimal, Strip, Normal;
    var current, b := ReadBindings(lines), Binding(name, "padi-limit=" + Decimal(n));
    Listed(lines);
    forall c | c in current
      ensures Normal(c) == c && c.name != name
    {
      RoundTripIffCanonical(c);
      NamesIn(current, name);
    }
    LimitRoundTrip(current + [b], lines, name, n);
  }
}
