/** Running an editor on the configuration file: read, edit, check, back up, write. */
module ConfigEdit {
  import opened Text
  import opened Patterns
  import opened Sections
  import opened ConfigManager

  function EditFile(e: Editor, s: State, now: string): State {
    if s.file.None? then s else Write(s, EditText(e, s.file.value), true, now)
  }

  function EditResult(e: Editor, s: State): Result<()> {
    if s.file.None? then Err(NotFound)
    else
      match Refusal(EditText(e, s.file.value))
      case Some(error) => Err(error)
      case None => Ok(())
  }

  lemma {:induction false} UnlinesHas(lines: seq<string>, i: nat, c: char)
    requires i < |lines| && c in lines[i]
    ensures c in Unlines(lines)
  {
    if i == 0 {
      assert c in lines[0] + "\n";
    } else {
      UnlinesHas(lines[1..], i - 1, c);
    }
  }

  lemma StripKeeps(s: string, i: nat)
    requires i < |s| && !IsSpace(s[i])
    ensures s[i] in Strip(s)
  {
    var from := FirstVisible(s, 0);
    assert Strip(s)[i - from] == s[i];
  }

  /** A text with a section is not refused. */
  lemma BracketWritable(text: string)
    requires '[' in text
    ensures Writable(text)
  {
    var i :| 0 <= i < |text| && text[i] == '[';
    StripKeeps(text, i);
  }

  /** The write checks come down to one question. */
  lemma WritableIff(text: string)
    ensures Writable(text) <==> '[' in text
  {
    var from := FirstVisible(text, 0);
    assert forall i :: 0 <= i < |Strip(text)| ==> Strip(text)[i] == text[from + i];
    if '[' in text {
      BracketWritable(text);
    }
  }

  lemma {:induction false} UnlinesOnly(lines: seq<string>, c: char)
    requires c in Unlines(lines) && c != '\n'
    ensures exists i :: 0 <= i < |lines| && c in lines[i]
  {
    if lines != [] && c !in lines[0] {
      assert |lines| > 1 && c in Unlines(lines[1..]);
      UnlinesOnly(lines[1..], c);
      var i :| 0 <= i < |lines[1..]| && c in lines[1..][i];
      assert lines[1..][i] == lines[i + 1];
    }
  }

  lemma {:induction false} FirstLine(text: string) returns (n: nat, next: nat)
    requires text != ""
    ensures n <= next <= |text| && next > 0
    ensures SplitLines(text) == [text[..n]] + SplitLines(text[next..])
    ensures forall i :: n <= i < next ==> IsBreak(text[i])
  {
    hide OneLine, OneLineEach, IsBreak, FindBreak, AfterBreak;
    n := FindBreak(text, 0);
    if n == |text| {
      next := n;
      assert text[..n] == text && text[next..] == "";
      NoLines();
    } else {
      next := AfterBreak(text, n);
    }
  }

  lemma {:induction false} SplitLinesHas(text: string, c: char)
    requires !IsBreak(c)
    ensures c in text <==> exists l :: l in SplitLines(text) && c in l
  {
    hide SplitLines, IsBreak;
    if text == "" {
      NoLines();
    } else {
      var n, next := FirstLine(text);
      var rest := SplitLines(text[next..]);
      SplitLinesHas(text[next..], c);
      assert c in text <==> c in text[..n] || c in text[next..] by {
        assert text == text[..n] + text[n..next] + text[next..];
        assert c !in text[n..next];
      }
      assert forall l :: l in [text[..n]] + rest <==> l == text[..n] || l in rest;
    }
  }

  lemma SameWritable(text: string)
    ensures Writable(Unlines(SplitLines(text))) <==> Writable(text)
  {
    hide Refusal, SplitLines, Unlines;
    WritableIff(text);
    WritableIff(Unlines(SplitLines(text)));
    SplitLinesHas(text, '[');
    if '[' in Unlines(SplitLines(text)) {
      UnlinesOnly(SplitLines(text), '[');
    }
    if l :| l in SplitLines(text) && '[' in l {
      var i :| 0 <= i < |SplitLines(text)| && SplitLines(text)[i] == l;
      UnlinesHas(SplitLines(text), i, '[');
    }
  }

  lemma {:induction false} HeaderHasBracket(lines: seq<string>, section: string)
    requires HeaderCount(lines, section) > 0
    ensures exists i :: 0 <= i < |lines| && '[' in lines[i]
  {
    hide Opens;
    if IsHeader(lines[0]) {
      var raw := lines[0];
      assert raw[FirstVisible(raw, 0)] == '[';
    } else {
      HeaderHasBracket(lines[1..], section);
      var i :| 0 <= i < |lines[1..]| && '[' in lines[1..][i];
      assert lines[1..][i] == lines[i + 1];
    }
  }

  lemma SectionWritable(lines: seq<string>, section: string)
    requires HeaderCount(lines, section) > 0
    ensures Writable(Unlines(lines))
  {
    HeaderHasBracket(lines, section);
    var i :| 0 <= i < |lines| && '[' in lines[i];
    UnlinesHas(lines, i, '[');
    BracketWritable(Unlines(lines));
  }

  /** After a run of an editor the file's lines are the edited ones, or as before if the
      result was refused; it is not refused if the edited section exists. */
  lemma EditFileLines(e: Editor, s: State, now: string)
    requires Orderly(e) && s.file.Some?
    ensures var old_ := SplitLines(s.file.value);
            var new_ := EditFile(e, s, now).file;
            && new_.Some?
            && SplitLines(new_.value) == (if EditResult(e, s).Ok? then Edit(e, old_) else old_)
            && (HeaderCount(old_, e.section) > 0 ==> EditResult(e, s).Ok?)
  {
    hide Edit, Strip, Orderly, HeaderCount;
    var lines := SplitLines(s.file.value);
    if s.file.value == "" {
      assert lines == [];
      assert HeaderCount(lines, e.section) == 0 by {
        NoLinesNoHeader(e.section);
      }
      assert EditResult(e, s).Err? by {
        EmptyRefused(e);
      }
    } else {
      SplitEditText(e, s.file.value);
      HeaderCountEdit(e, lines, e.section);
      if HeaderCount(lines, e.section) > 0 {
        SectionWritable(Edit(e, lines), e.section);
      }
    }
  }

  /** Without the section an edit succeeds and changes no line, exactly if the file as it is
      passes the write checks. */
  lemma NoSectionSucceedsIff(e: Editor, s: State, now: string)
    requires Orderly(e) && s.file.Some? && HeaderCount(SplitLines(s.file.value), e.section) == 0
    ensures EditResult(e, s).Ok? <==> Writable(s.file.value)
    ensures SplitLines(EditFile(e, s, now).file.value) == SplitLines(s.file.value)
  {
    SameWritable(s.file.value);
    hide Strip, Orderly, HeaderCount, Refusal, SplitLines, Unlines;
    NoSectionNoEdit(e, SplitLines(s.file.value), {});
    EditFileLines(e, s, now);
  }

  lemma ModulesText()
    ensures SplitLines("[modules]\n") == ["[modules]"] && Unlines(["[modules]"]) == "[modules]\n"
  {
    hide SplitLines;
    var line: string := "[modules]";
    assert line == ['[', 'm', 'o', 'd', 'u', 'l', 'e', 's', ']'];
    assert OneLine(line);
    assert Unlines([line]) == line + "\n" == "[modules]\n";
    SplitUnlines([line]);
  }

  lemma OnlyModules(section: string)
    requires section == "[pppoe]"
    ensures HeaderCount(["[modules]"], section) == 0
  {
    hide Strip;
    var line: string := "[modules]";
    StripTrimmed(line);
    assert Lower(line)[1] == LowerChar(line[1]) && line[1] == 'm' && section[1] == 'p';
    assert [line][1..] == [];
  }

  /** ... such as setting anything in `[pppoe]` when there are only modules. */
  lemma NoSectionSucceeds(e: Editor, s: State, now: string)
    requires Orderly(e) && s.file == Some("[modules]\n") && e.section == "[pppoe]"
    ensures EditResult(e, s).Ok? && SplitLines(EditFile(e, s, now).file.value) == ["[modules]"]
  {
    hide Strip, Orderly, EditText, EditFile, EditResult, HeaderCount, SplitLines, Unlines;
    var text: string := "[modules]\n";
    ModulesText();
    OnlyModules(e.section);
    assert text[0] == '[';
    BracketWritable(text);
    NoSectionSucceedsIff(e, s, now);
  }

  lemma NoLinesNoHeader(section: string)
    ensures HeaderCount([], section) == 0
  {
  }

  lemma EmptyRefused(e: Editor)
    ensures EditText(e, "") == "\n" && !Writable("\n")
  {
    StripIs("\n", 1, 1);
  }

  /** One pass of an editing loop. */
  lemma EditedStep(e: Editor, lines: seq<string>, i: nat, inside: bool, done: set<Pattern>)
    requires i < |lines|
    ensures Edited(e, lines[i..], inside, done) ==
            Emit(e, lines[i], inside, done)
            + Edited(e, lines[i + 1..], Next(lines[i], {e.section}, inside), Mark(e, lines[i], inside, done))
  {
    hide Emit, Mark, Next;
    assert lines[i..][1..] == lines[i + 1..];
  }

  /** ... as a loop that appends to `out` uses it. */
  lemma EditedPass(
      e: Editor, lines: seq<string>, i: nat, inside: bool, done: set<Pattern>, out: seq<string>)
    requires i < |lines|
    ensures out + Edited(e, lines[i..], inside, done) ==
            out + Emit(e, lines[i], inside, done)
            + Edited(e, lines[i + 1..], Next(lines[i], {e.section}, inside), Mark(e, lines[i], inside, done))
  {
    hide Edited, Emit, Mark, Next;
    EditedStep(e, lines, i, inside, done);
  }

  lemma EditStart(e: Editor, lines: seq<string>)
    ensures [] + Edited(e, lines[0..], false, {}) == Edit(e, lines)
  {
    hide Edited;
    assert lines[0..] == lines;
  }

  lemma EditedEnd(e: Editor, lines: seq<string>, inside: bool, done: set<Pattern>)
    ensures Edited(e, lines[|lines|..], inside, done) == if inside then Missing(e.slots, done) else []
  {
  }
}
