/**
 * The text pipeline of `fix_indents_in_file`: split the decoded text into
 * lines, settle the indent style, the tab width, trimming and the line break,
 * run `fix_tabs` or `fix_spaces` on every line, and join the result.
 *
 * `FixedText` is the pipeline as one function; `FixIndentsInText` performs the
 * same steps one after the other, with the loops of the source.
 */
module Driver {
  import opened Wrappers
  import opened Columns
  import opened SpaceFixer
  import opened TabFixer
  import opened LineSplit
  import opened Options

  /** The command-line arguments `tab_width`, `use_tabs`, `trim` and `line_endings`. */
  datatype Arguments = Arguments(tabWidth: Option<int>, useTabs: Option<bool>, trim: Option<bool>, lineEndings: Option<string>)

  /** The new content of the file and the returned suggestions. */
  datatype Outcome = Outcome(written: string, suggest: map<string, string>)

  /** The indent style: the argument, then `indent_style`, then the majority vote. */
  function UseTabs(arg: Option<bool>, options: map<string, string>, lines: seq<string>): (useTabs: bool)
    ensures ResolveStyle(arg, options).Some? ==> useTabs == ResolveStyle(arg, options).value
    ensures ResolveStyle(arg, options).None? ==> (useTabs <==> CountStarting(lines, '\t') > CountStarting(lines, ' '))
  {
    match ResolveStyle(arg, options)
    case Some(t) => t
    case None => CountStarting(lines, '\t') > CountStarting(lines, ' ')
  }

  /** No argument and no readable `indent_size`: the width is the default 4. */
  predicate WidthDefaulted(arg: Option<int>, options: map<string, string>)
  {
    arg.None? && ("indent_size" !in options || ParseInt(options["indent_size"]).None?)
  }

  /** No argument and no `trim_trailing_whitespace`: trimming is on by default. */
  predicate TrimDefaulted(arg: Option<bool>, options: map<string, string>)
  {
    arg.None? && "trim_trailing_whitespace" !in options
  }

  /** The suggestion the vote adds, when it decides the style. */
  function SuggestStyle(m: map<string, string>, arg: Option<bool>, options: map<string, string>, lines: seq<string>): map<string, string>
  {
    if ResolveStyle(arg, options).None? then m["indent_style" := if UseTabs(arg, options, lines) then "tab" else "space"] else m
  }

  /** The suggestion the default width adds. */
  function SuggestWidth(m: map<string, string>, arg: Option<int>, options: map<string, string>): map<string, string>
  {
    if WidthDefaulted(arg, options) then m["indent_size" := "4"] else m
  }

  /** The suggestion the default trimming adds. */
  function SuggestTrim(m: map<string, string>, arg: Option<bool>, options: map<string, string>): map<string, string>
  {
    if TrimDefaulted(arg, options) then m["trim_trailing_whitespace" := "true"] else m
  }

  /** The settings that were not given and fell back to a default, with the value chosen. */
  function Suggestions(args: Arguments, options: map<string, string>, lines: seq<string>): (s: map<string, string>)
    ensures s.Keys <= {"indent_style", "indent_size", "trim_trailing_whitespace"}
    ensures "indent_style" in s <==> ResolveStyle(args.useTabs, options).None?
    ensures "indent_style" in s ==> s["indent_style"] == if UseTabs(args.useTabs, options, lines) then "tab" else "space"
    ensures "indent_size" in s <==>
      args.tabWidth.None? && ("indent_size" !in options || ParseInt(options["indent_size"]).None?)
    ensures "indent_size" in s ==> s["indent_size"] == "4" && ResolveTabWidth(args.tabWidth, options) == 4
    ensures "trim_trailing_whitespace" in s <==> args.trim.None? && "trim_trailing_whitespace" !in options
    ensures "trim_trailing_whitespace" in s ==> s["trim_trailing_whitespace"] == "true" && ResolveTrim(args.trim, options)
  {
    SuggestTrim(SuggestWidth(SuggestStyle(map[], args.useTabs, options, lines), args.tabWidth, options), args.trim, options)
  }

  /** The settings the lines are fixed with, and the suggestions collected on the way. */
  datatype Settings = Settings(useTabs: bool, tabWidth: int, trim: bool, ending: Option<string>, suggest: map<string, string>)

  /** The settings in the order the source settles them; an unknown line ending name is a `KeyError`. */
  function Settle(args: Arguments, options: map<string, string>, lines: seq<string>): (r: Result<Settings>)
    ensures r.Fail? <==> ResolveLineEnding(args.lineEndings, options).Fail?
    ensures r.Fail? ==> r.error == ResolveLineEnding(args.lineEndings, options).error
    ensures r.Ok? ==> r.value == Settings(UseTabs(args.useTabs, options, lines), ResolveTabWidth(args.tabWidth, options),
      ResolveTrim(args.trim, options), ResolveLineEnding(args.lineEndings, options).value, Suggestions(args, options, lines))
  {
    match ResolveLineEnding(args.lineEndings, options)
    case Fail(e) => Fail(e)
    case Ok(ending) =>
      Ok(Settings(UseTabs(args.useTabs, options, lines), ResolveTabWidth(args.tabWidth, options),
        ResolveTrim(args.trim, options), ending, Suggestions(args, options, lines)))
  }

  /** The indent-style block: the argument, then `indent_style`, then the vote, which is suggested. */
  method SettleStyle(arg: Option<bool>, options: map<string, string>, lines: seq<string>, suggest: map<string, string>)
    returns (useTabs: bool, suggest': map<string, string>)
    ensures useTabs == UseTabs(arg, options, lines)
    ensures suggest' == SuggestStyle(suggest, arg, options, lines)
  {
    suggest' := suggest;
    var style := arg;
    if style.None? && "indent_style" in options {
      style := Some(options["indent_style"] == "tab");
    }
    if style.None? {
      useTabs := PreferTabs(lines);
      suggest' := suggest'["indent_style" := if useTabs then "tab" else "space"];
    } else {
      useTabs := style.value;
    }
  }

  /** The tab-width block: the argument, then `int(indent_size)` when it parses, then 4, which is suggested. */
  method SettleWidth(arg: Option<int>, options: map<string, string>, suggest: map<string, string>)
    returns (tabWidth: int, suggest': map<string, string>)
    ensures tabWidth == ResolveTabWidth(arg, options)
    ensures suggest' == SuggestWidth(suggest, arg, options)
  {
    suggest' := suggest;
    var width := arg;
    if width.None? && "indent_size" in options {
      width := ParseInt(options["indent_size"]);
    }
    if width.None? {
      width := Some(4);
      suggest' := suggest'["indent_size" := "4"];
    }
    tabWidth := width.value;
  }

  /** The trim block: the argument, then `trim_trailing_whitespace == "true"`, then true, which is suggested. */
  method SettleTrim(arg: Option<bool>, options: map<string, string>, suggest: map<string, string>)
    returns (trim: bool, suggest': map<string, string>)
    ensures trim == ResolveTrim(arg, options)
    ensures suggest' == SuggestTrim(suggest, arg, options)
  {
    suggest' := suggest;
    var t := arg;
    if t.None? && "trim_trailing_whitespace" in options {
      t := Some(options["trim_trailing_whitespace"] == "true");
    }
    if t.None? {
      t := Some(true);
      suggest' := suggest'["trim_trailing_whitespace" := "true"];
    }
    trim := t.value;
  }

  /** The line-ending block: the argument, then `end_of_line`, looked up in the table of names. */
  method SettleLineEnding(arg: Option<string>, options: map<string, string>) returns (r: Result<Option<string>>)
    ensures r == ResolveLineEnding(arg, options)
  {
    var name := arg;
    if name.None? && "end_of_line" in options {
      name := Some(options["end_of_line"]);
    }
    if name.None? {
      return Ok(None);
    }
    if name.value !in LineEndingNames {
      return Fail(KeyError(name.value));
    }
    r := Ok(Some(LineEndingNames[name.value]));
  }

  /** The settling steps of `fix_indents_in_file`, each setting and its suggestion in turn. */
  method SettleSettings(args: Arguments, options: map<string, string>, lines: seq<string>) returns (r: Result<Settings>)
    ensures r == Settle(args, options, lines)
  {
    var useTabs, suggest := SettleStyle(args.useTabs, options, lines, map[]);
    var tabWidth;
    tabWidth, suggest := SettleWidth(args.tabWidth, options, suggest);
    var trim;
    trim, suggest := SettleTrim(args.trim, options, suggest);
    var ending := SettleLineEnding(args.lineEndings, options);
    if ending.Fail? {
      return Fail(ending.error);
    }
    r := Ok(Settings(useTabs, tabWidth, trim, ending.value, suggest));
  }

  /** One line through the fixer the style selects. */
  function FixLine(line: string, tabWidth: int, useTabs: bool, trim: bool): Result<string>
    requires tabWidth > 0
  {
    if useTabs then FixedTabs(line, tabWidth, trim) else Ok(FixedSpaces(line, tabWidth, trim))
  }

  /** Every line through the fixer, in order; the first error stops the run. */
  function FixAll(lines: seq<string>, tabWidth: int, useTabs: bool, trim: bool): Result<seq<string>>
    requires tabWidth > 0
  {
    if lines == [] then Ok([])
    else match FixAll(lines[..|lines| - 1], tabWidth, useTabs, trim)
      case Fail(e) => Fail(e)
      case Ok(done) =>
        match FixLine(lines[|lines| - 1], tabWidth, useTabs, trim)
        case Fail(e) => Fail(e)
        case Ok(l) => Ok(done + [l])
  }

  /** The loop that fixes the lines. Every line the split produces ends in `"\n"`,
      so the look-ahead of `fix_tabs` stays inside the line and nothing is raised. */
  method FixLines(lines: seq<string>, tabWidth: int, useTabs: bool, trim: bool) returns (result: seq<string>)
    requires tabWidth > 0
    requires forall i :: 0 <= i < |lines| ==> EndsWith(lines[i], "\n")
    ensures FixAll(lines, tabWidth, useTabs, trim) == Ok(result)
  {
    result := [];
    for i := 0 to |lines|
      invariant FixAll(lines[..i], tabWidth, useTabs, trim) == Ok(result)
    {
      assert lines[..i + 1][..i] == lines[..i];
      var fixed: string;
      if useTabs {
        var f := FixTabs(lines[i], tabWidth, trim);
        assert f.Ok?;
        fixed := f.value;
      } else {
        fixed := FixSpaces(lines[i], tabWidth, trim);
      }
      result := result + [fixed];
    }
    assert lines[..|lines|] == lines;
  }

  /** The break written: the configured one, else the text's own. */
  function OutBreak(ending: Option<string>, lineBreak: string): string
  {
    if ending.Some? then ending.value else lineBreak
  }

  /** The new content of the file: nothing at all for an empty text. */
  function Written(text: string, fixed: seq<string>, ending: Option<string>): string
  {
    var lineBreak := LineBreakOf(text);
    if |text| > 0 then Rejoin(fixed, OutBreak(ending, lineBreak), !EndsWith(text, lineBreak)) else ""
  }

  /** What `fix_indents_in_file` writes and returns for a decoded text, or the error it raises. */
  function FixedText(text: string, options: map<string, string>, args: Arguments): Result<Outcome>
    requires ResolveTabWidth(args.tabWidth, options) > 0
  {
    var lines := Lines(text);
    match Settle(args, options, lines)
    case Fail(e) => Fail(e)
    case Ok(s) =>
      match FixAll(lines, s.tabWidth, s.useTabs, s.trim)
      case Fail(e) => Fail(e)
      case Ok(fixed) => Ok(Outcome(Written(text, fixed, s.ending), s.suggest))
  }

  /** The steps of `fix_indents_in_file` after decoding, in the order the source takes them. */
  method FixIndentsInText(text: string, options: map<string, string>, args: Arguments) returns (r: Result<Outcome>)
    requires ResolveTabWidth(args.tabWidth, options) > 0
    ensures r == FixedText(text, options, args)
  {
    var lineBreak, lines, noLastLineBreak := SplitText(text);
    var settings := SettleSettings(args, options, lines);
    if settings.Fail? {
      return Fail(settings.error);
    }
    var s := settings.value;
    LinesEndInNewline(text);
    var fixed := FixLines(lines, s.tabWidth, s.useTabs, s.trim);
    var written := "";
    if |text| > 0 {
      written := Rejoin(fixed, OutBreak(s.ending, lineBreak), noLastLineBreak);
    }
    r := Ok(Outcome(written, s.suggest));
  }

  /** The output of the pipeline when the settings are known: the fixed lines, joined. */
  lemma FixedTextShape(text: string, options: map<string, string>, args: Arguments)
    requires ResolveTabWidth(args.tabWidth, options) > 0
    requires ResolveLineEnding(args.lineEndings, options).Ok?
    ensures var s := Settle(args, options, Lines(text)).value;
      && FixAll(Lines(text), s.tabWidth, s.useTabs, s.trim).Ok?
      && FixedText(text, options, args) == Ok(Outcome(Written(text, FixAll(Lines(text), s.tabWidth, s.useTabs, s.trim).value, s.ending), s.suggest))
  {
    var s := Settle(args, options, Lines(text)).value;
    LinesEndInNewline(text);
    FixAllSucceeds(Lines(text), s.tabWidth, s.useTabs, s.trim);
  }

  // ---------------------------------------------------------------------------
  // What the pipeline guarantees.

  /** Lines that all end in `"\n"` are all fixed, whichever fixer runs, and still end in `"\n"`. */
  lemma {:induction false} FixAllSucceeds(lines: seq<string>, tabWidth: int, useTabs: bool, trim: bool)
    requires tabWidth > 0
    requires forall i :: 0 <= i < |lines| ==> EndsWith(lines[i], "\n")
    ensures FixAll(lines, tabWidth, useTabs, trim).Ok?
    ensures var fixed := FixAll(lines, tabWidth, useTabs, trim).value;
      && |fixed| == |lines|
      && forall i :: 0 <= i < |lines| ==> FixLine(lines[i], tabWidth, useTabs, trim) == Ok(fixed[i]) && EndsWith(fixed[i], "\n")
  {
    if lines != [] {
      var init, last := lines[..|lines| - 1], lines[|lines| - 1];
      FixAllSucceeds(init, tabWidth, useTabs, trim);
      LastIsNewline(last, tabWidth, useTabs, trim);
    }
  }

  /** One line ending in `"\n"` is fixed and still ends in `"\n"`. */
  lemma LastIsNewline(line: string, tabWidth: int, useTabs: bool, trim: bool)
    requires tabWidth > 0 && EndsWith(line, "\n")
    ensures FixLine(line, tabWidth, useTabs, trim).Ok?
    ensures EndsWith(FixLine(line, tabWidth, useTabs, trim).value, "\n")
  {
    var s := line[..|line| - 1];
    assert line == s + ['\n'];
    if useTabs {
      FixedTabsKeepsLastVisible(line, tabWidth, trim);
    } else {
      FixedSpacesKeepsLastVisible(s, '\n', tabWidth, trim);
    }
  }

  /** The only error left is an unknown `end_of_line` name: `fix_tabs` never raises on a line ending in `"\n"`. */
  lemma FixedTextFails(text: string, options: map<string, string>, args: Arguments)
    requires ResolveTabWidth(args.tabWidth, options) > 0
    ensures FixedText(text, options, args).Fail? <==> ResolveLineEnding(args.lineEndings, options).Fail?
    ensures FixedText(text, options, args).Fail? ==> FixedText(text, options, args).error.KeyError?
  {
    if ResolveLineEnding(args.lineEndings, options).Ok? {
      FixedTextShape(text, options, args);
    }
  }

  /** An empty text gives an empty file. */
  lemma EmptyTextWritesNothing(options: map<string, string>, args: Arguments)
    requires ResolveTabWidth(args.tabWidth, options) > 0
    ensures FixedText("", options, args).Ok? ==> FixedText("", options, args).value.written == ""
  {
  }

  /** Pieces with the same visible characters, joined with the same break, have the same visible characters. */
  lemma {:induction false} JoinKeepsVisible(ps: seq<string>, qs: seq<string>, sep: string)
    requires |ps| == |qs| && forall i :: 0 <= i < |ps| ==> Visible(ps[i]) == Visible(qs[i])
    ensures Visible(Join(ps, sep)) == Visible(Join(qs, sep))
  {
    if |ps| > 1 {
      JoinKeepsVisible(ps[1..], qs[1..], sep);
      VisibleConcat(ps[0] + sep, Join(ps[1..], sep));
      VisibleConcat(qs[0] + sep, Join(qs[1..], sep));
      VisibleConcat(ps[0], sep);
      VisibleConcat(qs[0], sep);
    }
  }

  /** Two strings ending in `"\n"` with the same visible characters keep them without it. */
  lemma DropNewlineKeepsVisible(p: string, f: string)
    requires Visible(p + "\n") == Visible(f) && EndsWith(f, "\n")
    ensures Visible(DropLast(f)) == Visible(p)
  {
    assert p + "\n" == p + ['\n'];
    VisibleSnoc(p, '\n');
    assert f == DropLast(f) + ['\n'];
    VisibleSnoc(DropLast(f), '\n');
    assert Visible(p) == Visible(f)[..|Visible(f)| - 1];
  }

  /** Without its final `"\n"`, a fixed line shows the same characters as the piece it came from. */
  lemma FixedPieceKeepsVisible(p: string, tabWidth: int, useTabs: bool, trim: bool)
    requires tabWidth > 0
    ensures FixLine(p + "\n", tabWidth, useTabs, trim).Ok?
    ensures Visible(DropLast(FixLine(p + "\n", tabWidth, useTabs, trim).value)) == Visible(p)
  {
    var line := p + "\n";
    assert EndsWith(line, "\n");
    LastIsNewline(line, tabWidth, useTabs, trim);
    if useTabs {
      FixedTabsKeepsVisible(line, tabWidth, trim);
    } else {
      SpacesKeepVisible(line, tabWidth, trim);
    }
    DropNewlineKeepsVisible(p, FixLine(line, tabWidth, useTabs, trim).value);
  }

  /** The fixed lines, without their `"\n"`, joined with `sep`, show the characters of the pieces joined with `sep`. */
  lemma FixedLinesKeepVisible(pieces: seq<string>, fixed: seq<string>, sep: string, tabWidth: int, useTabs: bool, trim: bool)
    requires tabWidth > 0 && |fixed| == |pieces|
    requires forall i :: 0 <= i < |pieces| ==> FixLine(pieces[i] + "\n", tabWidth, useTabs, trim) == Ok(fixed[i])
    ensures Visible(Join(DropLasts(fixed), sep)) == Visible(Join(pieces, sep))
  {
    forall i | 0 <= i < |pieces| ensures Visible(DropLasts(fixed)[i]) == Visible(pieces[i]) {
      FixedPieceKeepsVisible(pieces[i], tabWidth, useTabs, trim);
    }
    JoinKeepsVisible(DropLasts(fixed), pieces, sep);
  }

  /** Fixed line `i` of a text is piece `i` of its split, with `"\n"` appended, through the fixer. */
  lemma FixedPiecesOfText(text: string, tabWidth: int, useTabs: bool, trim: bool)
    requires tabWidth > 0
    ensures FixAll(Lines(text), tabWidth, useTabs, trim).Ok?
    ensures var fixed := FixAll(Lines(text), tabWidth, useTabs, trim).value;
      var pieces := Split(text, LineBreakOf(text));
      && |fixed| == |pieces|
      && forall i :: 0 <= i < |pieces| ==> FixLine(pieces[i] + "\n", tabWidth, useTabs, trim) == Ok(fixed[i])
  {
    LinesArePieces(text);
    LinesEndInNewline(text);
    FixAllSucceeds(Lines(text), tabWidth, useTabs, trim);
  }

  /** The visible characters written for the fixed lines of a text. */
  lemma WrittenKeepsVisible(text: string, tabWidth: int, useTabs: bool, trim: bool, ending: Option<string>)
    requires tabWidth > 0 && |text| > 0
    ensures FixAll(Lines(text), tabWidth, useTabs, trim).Ok?
    ensures var lb := LineBreakOf(text);
      var outBreak := OutBreak(ending, lb);
      Visible(Written(text, FixAll(Lines(text), tabWidth, useTabs, trim).value, ending))
        == Visible(Join(Split(text, lb), outBreak) + (if EndsWith(text, lb) then outBreak else ""))
  {
    FixedPiecesOfText(text, tabWidth, useTabs, trim);
    var lb := LineBreakOf(text);
    var outBreak := OutBreak(ending, lb);
    var fixed := FixAll(Lines(text), tabWidth, useTabs, trim).value;
    var pieces := Split(text, lb);
    FixedLinesKeepVisible(pieces, fixed, outBreak, tabWidth, useTabs, trim);
    var tail := if EndsWith(text, lb) then outBreak else "";
    assert Written(text, fixed, ending) == Join(DropLasts(fixed), outBreak) + tail;
    VisibleConcat(Join(DropLasts(fixed), outBreak), tail);
    VisibleConcat(Join(pieces, outBreak), tail);
  }

  /**
   * Only spaces, tabs and line breaks change: the visible characters of the output
   * are those of the text's pieces joined with the break written, with one more
   * break at the end when the text ended in its own.
   */
  lemma FixedTextKeepsVisible(text: string, options: map<string, string>, args: Arguments)
    requires ResolveTabWidth(args.tabWidth, options) > 0
    requires FixedText(text, options, args).Ok? && |text| > 0
    ensures var lb := LineBreakOf(text);
      var outBreak := OutBreak(ResolveLineEnding(args.lineEndings, options).value, lb);
      Visible(FixedText(text, options, args).value.written)
        == Visible(Join(Split(text, lb), outBreak) + (if EndsWith(text, lb) then outBreak else ""))
  {
    FixedTextFails(text, options, args);
    FixedTextShape(text, options, args);
    var s := Settle(args, options, Lines(text)).value;
    WrittenKeepsVisible(text, s.tabWidth, s.useTabs, s.trim, s.ending);
  }

  /** Lines fixed with spaces hold no tabs, and the breaks hold none either. */
  lemma {:induction false} JoinNoTabs(ps: seq<string>, sep: string)
    requires NoTabs(sep) && forall i :: 0 <= i < |ps| ==> NoTabs(ps[i])
    ensures NoTabs(Join(ps, sep))
  {
    if |ps| > 1 {
      JoinNoTabs(ps[1..], sep);
    }
  }

  /** Every break the output can be written with is tab-free. */
  lemma OutBreakNoTabs(text: string, ending: Option<string>)
    requires ending.Some? ==> ending.value in {"\n", "\r\n", "\r"}
    ensures NoTabs(OutBreak(ending, LineBreakOf(text)))
  {
    LineBreakPriority(text);
  }

  /** A prefix of a tab-free string is tab-free. */
  lemma DropLastNoTabs(f: string)
    requires NoTabs(f)
    ensures NoTabs(DropLast(f))
  {
  }

  /** Lines fixed with spaces hold no tab once their last character is dropped. */
  lemma SpacedLinesNoTabs(lines: seq<string>, tabWidth: int, trim: bool)
    requires tabWidth > 0
    requires forall i :: 0 <= i < |lines| ==> EndsWith(lines[i], "\n")
    ensures FixAll(lines, tabWidth, false, trim).Ok?
    ensures var d := DropLasts(FixAll(lines, tabWidth, false, trim).value);
      forall i :: 0 <= i < |d| ==> NoTabs(d[i])
  {
    FixAllSucceeds(lines, tabWidth, false, trim);
    var fixed := FixAll(lines, tabWidth, false, trim).value;
    forall i | 0 <= i < |fixed| ensures NoTabs(DropLasts(fixed)[i]) {
      SpacesShape(lines[i], tabWidth, trim);
      assert fixed[i] == FixedSpaces(lines[i], tabWidth, trim);
      DropLastNoTabs(fixed[i]);
    }
  }

  /** Tab-free lines rejoined with a tab-free break hold no tab. */
  lemma RejoinNoTabs(fixed: seq<string>, lineBreak: string, noLastLineBreak: bool)
    requires NoTabs(lineBreak)
    requires forall i :: 0 <= i < |DropLasts(fixed)| ==> NoTabs(DropLasts(fixed)[i])
    ensures NoTabs(Rejoin(fixed, lineBreak, noLastLineBreak))
  {
    JoinNoTabs(DropLasts(fixed), lineBreak);
    var tail := if noLastLineBreak then "" else lineBreak;
    assert NoTabs(tail);
  }

  /** The lines of a text fixed with spaces, joined with a tab-free break, hold no tab. */
  lemma WrittenNoTabs(text: string, tabWidth: int, trim: bool, ending: Option<string>)
    requires tabWidth > 0
    requires ending.Some? ==> ending.value in {"\n", "\r\n", "\r"}
    ensures FixAll(Lines(text), tabWidth, false, trim).Ok?
    ensures NoTabs(Written(text, FixAll(Lines(text), tabWidth, false, trim).value, ending))
  {
    LinesEndInNewline(text);
    SpacedLinesNoTabs(Lines(text), tabWidth, trim);
    OutBreakNoTabs(text, ending);
    var lb := LineBreakOf(text);
    RejoinNoTabs(FixAll(Lines(text), tabWidth, false, trim).value, OutBreak(ending, lb), !EndsWith(text, lb));
  }

  /** With spaces selected, the file written holds no tab at all. */
  lemma SpacesTextHasNoTabs(text: string, options: map<string, string>, args: Arguments)
    requires ResolveTabWidth(args.tabWidth, options) > 0
    requires !UseTabs(args.useTabs, options, Lines(text))
    requires FixedText(text, options, args).Ok?
    ensures NoTabs(FixedText(text, options, args).value.written)
  {
    FixedTextFails(text, options, args);
    FixedTextShape(text, options, args);
    var s := Settle(args, options, Lines(text)).value;
    WrittenNoTabs(text, s.tabWidth, s.trim, s.ending);
  }

  /** Lines that the fixer leaves alone one by one are left alone together. */
  lemma {:induction false} FixAllFixpoint(lines: seq<string>, tabWidth: int, useTabs: bool, trim: bool)
    requires tabWidth > 0
    requires forall i :: 0 <= i < |lines| ==> FixLine(lines[i], tabWidth, useTabs, trim) == Ok(lines[i])
    ensures FixAll(lines, tabWidth, useTabs, trim) == Ok(lines)
  {
    if lines != [] {
      var init := lines[..|lines| - 1];
      FixAllFixpoint(init, tabWidth, useTabs, trim);
      assert init + [lines[|lines| - 1]] == lines;
    }
  }

  /** A text cut into pieces already in `fix_spaces` form comes out of the fixer as it went in. */
  lemma NormalizedLinesUnchanged(pieces: seq<string>, tabWidth: int, trim: bool)
    requires tabWidth > 0
    requires forall i :: 0 <= i < |pieces| ==> NoTabs(pieces[i]) && (trim ==> NoBlankBeforeBreak(pieces[i] + "\n"))
    ensures FixAll(WithNewline(pieces), tabWidth, false, trim) == Ok(WithNewline(pieces))
  {
    var lines := WithNewline(pieces);
    forall i | 0 <= i < |lines| ensures FixLine(lines[i], tabWidth, false, trim) == Ok(lines[i]) {
      NormalizedLineUnchanged(pieces[i], tabWidth, trim);
    }
    FixAllFixpoint(lines, tabWidth, false, trim);
  }

  lemma NormalizedLineUnchanged(p: string, tabWidth: int, trim: bool)
    requires tabWidth > 0 && NoTabs(p) && (trim ==> NoBlankBeforeBreak(p + "\n"))
    ensures FixLine(p + "\n", tabWidth, false, trim) == Ok(p + "\n")
  {
    var last := p + "\n";
    assert NoTabs(last) && !EndsInBlank(last);
    FixedSpacesFixpoint(last, tabWidth, trim);
  }

  /** The normalized lines of a text are written back as they came. */
  lemma NormalizedWritten(text: string, tabWidth: int, trim: bool)
    requires tabWidth > 0
    requires forall p :: p in Split(text, LineBreakOf(text)) ==> NoTabs(p) && (trim ==> NoBlankBeforeBreak(p + "\n"))
    ensures var lb := LineBreakOf(text);
      FixAll(Lines(text), tabWidth, false, trim) == Ok(Lines(text))
      && Written(text, Lines(text), None) == if |text| > 0 then text + (if EndsWith(text, lb) then lb else "") else ""
  {
    var pieces := Split(text, LineBreakOf(text));
    LinesArePieces(text);
    assert Lines(text) == WithNewline(pieces);
    assert forall i :: 0 <= i < |pieces| ==> pieces[i] in pieces;
    NormalizedLinesUnchanged(pieces, tabWidth, trim);
    SplitRejoin(text);
  }

  /**
   * A text already in the form `fix_spaces` produces is written back as it is,
   * except that a text ending in its line break gets one more.
   */
  lemma NormalizedTextUnchanged(text: string, options: map<string, string>, args: Arguments)
    requires ResolveTabWidth(args.tabWidth, options) > 0
    requires !UseTabs(args.useTabs, options, Lines(text))
    requires ResolveLineEnding(args.lineEndings, options) == Ok(None)
    requires var trim := ResolveTrim(args.trim, options);
      forall p :: p in Split(text, LineBreakOf(text)) ==> NoTabs(p) && (trim ==> NoBlankBeforeBreak(p + "\n"))
    ensures var lb := LineBreakOf(text);
      FixedText(text, options, args).Ok?
      && FixedText(text, options, args).value.written == if |text| > 0 then text + (if EndsWith(text, lb) then lb else "") else ""
  {
    FixedTextShape(text, options, args);
    var s := Settle(args, options, Lines(text)).value;
    NormalizedWritten(text, s.tabWidth, s.trim);
  }
}
