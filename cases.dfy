/**
 * Worked cases of both fixers and of the whole pipeline. The single-line
 * cases are instances of the general lemmas. Two kinds are followed step by
 * step through the scans instead: the pair of lines showing that `fix_tabs`
 * is not idempotent with trimming on, and the text `"a\n"` through the whole
 * pipeline.
 */
module Cases {
  import opened Wrappers
  import opened Columns
  import opened SpaceFixer
  import opened TabFixer
  import opened LineSplit
  import opened Options
  import opened Driver

  /** At width 4 a leading tab becomes four spaces. */
  lemma SpacesExpandLeadingTab(trim: bool)
    ensures FixedSpaces("\tfoo\n", 4, trim) == "    foo\n"
  {
    FixedSpacesLeadingTabs(1, 'f', "oo\n", 4, trim);
    assert Repeat('\t', 1) + ['f'] + "oo\n" == "\tfoo\n";
    assert Repeat(' ', 4) + ['f'] + "oo\n" == "    foo\n";
  }

  /** Two tabs become eight spaces. */
  lemma SpacesExpandTwoTabs(trim: bool)
    ensures FixedSpaces("\t\tbar", 4, trim) == "        bar"
  {
    FixedSpacesLeadingTabs(2, 'b', "ar", 4, trim);
    assert Repeat('\t', 2) + ['b'] + "ar" == "\t\tbar";
    assert Repeat(' ', 8) + ['b'] + "ar" == "        bar";
  }

  /** Two tabs become eight spaces, and the blanks before the break are trimmed. */
  lemma SpacesExpandAndTrim()
    ensures FixedSpaces("\t\tbar  \n", 4, true) == "        bar\n"
  {
    SpacesExpandTwoTabs(true);
    FixedSpacesTrimsBeforeBreak("\t\tbar", "  ", '\n', 4);
    assert "\t\tbar" + "  " + ['\n'] == "\t\tbar  \n";
    assert "        bar" + ['\n'] == "        bar\n";
  }

  /** `"x   \n"` loses its trailing blanks only when trimming is on. */
  lemma SpacesTrimTrailing()
    ensures FixedSpaces("x   \n", 4, true) == "x\n"
    ensures FixedSpaces("x   \n", 4, false) == "x   \n"
  {
    FixedSpacesTrimsBeforeBreak("x", "   ", '\n', 4);
    assert "x" + "   " + ['\n'] == "x   \n";
    FixedSpacesFixpoint("x", 4, true);
    FixedSpacesFixpoint("x   \n", 4, false);
  }

  /** A single space between two words is kept at every tab width. */
  lemma TabsKeepSingleSpace(w: int, trim: bool)
    requires w > 0
    ensures FixedTabs("a b\n", w, trim) == Ok("a b\n")
  {
    TabsCopyWord("a", w, trim);
    FixedTabsSingleSpace("a", 'b', "\n", w, trim);
    assert "a" + " " + ['b'] + "\n" == "a b\n";
  }

  /** A line without blanks is copied. */
  lemma TabsCopyWord(x: string, w: int, trim: bool)
    requires w > 0 && NoBlanks(x)
    ensures FixedTabs(x, w, trim) == Ok(x)
  {
    var e: string := [];
    FixedTabsCopiesTail(e, x, w, trim);
    assert e + x == x;
  }

  /** The single space after `abc` reaches the stop at column 4 and is still kept. */
  lemma TabsKeepSpaceOnStop(trim: bool)
    ensures FixedTabs("abc d", 4, trim) == Ok("abc d")
  {
    TabsCopyWord("abc", 4, trim);
    FixedTabsSingleSpace("abc", 'd', "", 4, trim);
    assert "abc" + " " + ['d'] + "" == "abc d";
  }

  /** At width 1 a single leading space before a word is kept, though it reaches a stop. */
  lemma TabsKeepSpaceWidthOne(trim: bool)
    ensures FixedTabs(" c", 1, trim) == Ok(" c")
  {
    var e: string := [];
    FixedTabsSingleSpace(e, 'c', "", 1, trim);
    assert e + " " + ['c'] + "" == " c";
  }

  lemma ColumnsOfAb()
    ensures ColumnAfter("ab", 4) == 2 && ColumnAfter("ab" + "  ", 4) == 4
  {
    ColumnAfterTabFree("ab", 4);
    assert "ab" + "  " == "ab  ";
    ColumnAfterTabFree("ab  ", 4);
  }

  lemma BlanksToFirstStop()
    ensures RunBlanks(2, 4, 4) == "\t"
  {
    assert 4 / 4 == 1 && 2 / 4 == 0 && 4 % 4 == 0;
    assert Repeat('\t', 1) + Repeat(' ', 0) == "\t";
  }

  /** Two spaces after `ab` reach the stop at column 4 and become a tab. */
  lemma TabsCollapseMidLine(trim: bool)
    ensures FixedTabs("ab  c", 4, trim) == Ok("ab\tc")
  {
    var s, b, v := "ab", "  ", "";
    assert FixedTabs(s, 4, trim) == Ok(s) by { TabsCopyWord(s, 4, trim); }
    assert RunBlanks(ColumnAfter(s, 4), ColumnAfter(s + b, 4), 4) == "\t" by {
      ColumnsOfAb();
      BlanksToFirstStop();
    }
    assert s + b + ['c'] + v == "ab  c" && s + "\t" + ['c'] + v == "ab\tc" by {
      assert s + b + ['c'] + v == "ab  c";
      assert s + "\t" + ['c'] + v == "ab\tc";
    }
    FixedTabsCollapse(s, b, 'c', v, 4, trim);
  }

  /**
   * With trimming on, `fix_tabs` is not idempotent: the tab dropped before
   * `\r` still advanced `pos`, so the two spaces after `a\r` are counted from
   * column 5 instead of 2 and reach no stop; fixing the output again, they
   * reach column 4 and become a tab.
   */
  lemma TabsTrimNotIdempotent()
    ensures FixedTabs("a\t\r  x", 4, true) == Ok("a\r  x")
    ensures FixedTabs("a\r  x", 4, true) == Ok("a\r\tx")
  {
    TrimmedTabRun();
    TrimmedTabRunAgain();
  }

  /** The scan of `a\t\r  x` up to the `\r`: the dropped tab still moved `pos` to 4, and the break to 5. */
  lemma TrimmedTabPrefix()
    ensures TabsRun("a\t\r  x", 3, 4, true) == Ok(TabsState("a\r", "", "", 5))
  {
    var line := "a\t\r  x";
    assert line[0] == 'a' && line[1] == '\t' && line[2] == '\r';
    assert "" + "" + "" + ['a'] == "a";
    assert TabsRun(line, 1, 4, true) == Ok(TabsState("a", "", "", 1));
    assert "" + "\t" == "\t";
    assert TabsRun(line, 2, 4, true) == Ok(TabsState("a", "", "\t", 4));
    assert "a" + ['\r'] == "a\r";
  }

  /** The two spaces after `a\r` are buffered, counted from column 5. */
  lemma TrimmedTabSpaces()
    ensures TabsRun("a\t\r  x", 5, 4, true) == Ok(TabsState("a\r", "  ", "", 5))
  {
    var line := "a\t\r  x";
    TrimmedTabPrefix();
    assert line[3] == ' ' && line[4] == ' ';
    assert NextChar(line, 4) == Some(' ') && "" + " " == " ";
    assert TabsRun(line, 4, 4, true) == Ok(TabsState("a\r", " ", "", 5));
    assert " " + " " == "  ";
  }

  lemma TrimmedTabRun()
    ensures FixedTabs("a\t\r  x", 4, true) == Ok("a\r  x")
  {
    var line := "a\t\r  x";
    TrimmedTabSpaces();
    assert line[5] == 'x' && |line| == 6;
    assert "a\r" + "" + "  " + ['x'] == "a\r  x";
    assert TabsRun(line, 6, 4, true) == Ok(TabsState("a\r  x", "", "", 8));
  }

  /** The scan of `a\r  x` up to the first space: `pos` is the true column 2. */
  lemma TrimmedAgainPrefix()
    ensures TabsRun("a\r  x", 3, 4, true) == Ok(TabsState("a\r", " ", "", 2))
  {
    var line := "a\r  x";
    assert line[0] == 'a' && line[1] == '\r' && line[2] == ' ' && line[3] == ' ';
    assert "" + "" + "" + ['a'] == "a";
    assert TabsRun(line, 1, 4, true) == Ok(TabsState("a", "", "", 1));
    assert "a" + ['\r'] == "a\r";
    assert TabsRun(line, 2, 4, true) == Ok(TabsState("a\r", "", "", 2));
    assert NextChar(line, 3) == Some(' ') && "" + " " == " ";
  }

  lemma TrimmedTabRunAgain()
    ensures FixedTabs("a\r  x", 4, true) == Ok("a\r\tx")
  {
    var line := "a\r  x";
    TrimmedAgainPrefix();
    assert line[3] == ' ' && line[4] == 'x';
    assert "" + "\t" == "\t";
    assert TabsRun(line, 4, 4, true) == Ok(TabsState("a\r", "", "\t", 4));
    assert "a\r" + "\t" + "" + ['x'] == "a\r\tx";
    assert TabsRun(line, 5, 4, true) == Ok(TabsState("a\r\tx", "", "", 5));
  }

  /** Four leading spaces at width 4 become one tab. */
  lemma TabsCollapseFour(trim: bool)
    ensures FixedTabs("    foo\n", 4, trim) == Ok("\tfoo\n")
  {
    var b, v := "    ", "oo\n";
    FixedTabsIndent(b, 'f', v, 4, trim);
    assert Repeat('\t', ColumnAfter(b, 4) / 4) + Repeat(' ', ColumnAfter(b, 4) % 4) == "\t" by {
      ColumnAfterSpaces([], 4, 4);
      assert [] + Repeat(' ', 4) == b;
      assert Repeat('\t', 1) + Repeat(' ', 0) == "\t";
    }
    assert b + ['f'] + v == "    foo\n";
    assert "\t" + ['f'] + v == "\tfoo\n";
  }

  /** Three leading spaces at width 4 reach no stop and stay as they are. */
  lemma TabsKeepThree(trim: bool)
    ensures FixedTabs("   foo\n", 4, trim) == Ok("   foo\n")
  {
    var b, v := "   ", "oo\n";
    FixedTabsIndent(b, 'f', v, 4, trim);
    assert Repeat('\t', ColumnAfter(b, 4) / 4) + Repeat(' ', ColumnAfter(b, 4) % 4) == b by {
      ColumnAfterSpaces([], 3, 4);
      assert [] + Repeat(' ', 3) == b;
      assert Repeat('\t', 0) + Repeat(' ', 3) == b;
    }
    assert b + ['f'] + v == "   foo\n";
  }

  // The text "a\n", step by step.

  lemma FirstBreakOfA()
    ensures IndexOf("a\n", "\n") == Some(1)
  {
    assert "a\n"[..1] == "a";
    assert "a\n"[1..] == "\n";
    assert "\n"[..1] == "\n";
  }

  lemma NoCrlfInA()
    ensures !Contains("a\n", "\r\n")
  {
    assert "a\n"[..2][0] == 'a';
    assert "a\n"[1..] == "\n";
  }

  /** `"a\n"` is read with the break `"\n"`. */
  lemma LineBreakOfA()
    ensures LineBreakOf("a\n") == "\n"
  {
    NoCrlfInA();
    FirstBreakOfA();
    LineBreakPriority("a\n");
  }

  /** Splitting at the final break leaves an empty last piece. */
  lemma SplitOfA()
    ensures Split("a\n", "\n") == ["a", ""]
  {
    FirstBreakOfA();
    assert "a\n"[2..] == "";
    assert "a\n"[..1] == "a";
  }

  /** So the fixers see two lines, the second one empty. */
  lemma LinesOfA()
    ensures Lines("a\n") == ["a\n", "\n"]
  {
    LineBreakOfA();
    SplitOfA();
    LinesArePieces("a\n");
    assert "a" + "\n" == "a\n" && "" + "\n" == "\n";
    var ls := Lines("a\n");
    assert ls[0] == "a\n" && ls[1] == "\n";
  }

  /** `"a\n"`, with no argument and no `.editorconfig` property, is written as `"a\n\n"`. */
  lemma TrailingBreakDoubled()
    ensures FixedText("a\n", map[], Arguments(None, None, None, None)).Ok?
    ensures FixedText("a\n", map[], Arguments(None, None, None, None)).value.written == "a\n\n"
  {
    LinesOfA();
    LineBreakOfA();
    SplitOfA();
    var lines := ["a\n", "\n"];
    assert lines[..1] == ["a\n"] && ["a\n"][..0] == [];
    assert CountStarting(lines, '\t') == 0;
    assert ResolveTabWidth(None, map[]) == 4;
    assert forall p :: p in Split("a\n", "\n") ==> NoTabs(p) && NoBlankBeforeBreak(p + "\n");
    assert EndsWith("a\n", "\n");
    NormalizedTextUnchanged("a\n", map[], Arguments(None, None, None, None));
  }
}
