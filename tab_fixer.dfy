/**
 * `fix_tabs`: turn blank runs that reach a tab stop into tabs, keeping a
 * single space between two words as it is, optionally dropping the blanks that
 * stand right before a line break.
 *
 * The scan looks one character ahead (`line[i+1]`) when it meets a space with
 * nothing pending, so `TabsRun` is indexed by position in the whole line, and a
 * space at the very end with nothing pending is Python's `IndexError`.
 */
module TabFixer {
  import opened Wrappers
  import opened Columns

  /** The loop variables of `fix_tabs`: the output so far, the pending spaces and tabs, and `pos`. */
  datatype TabsState = TabsState(result: string, spaces: string, tabs: string, pos: nat)

  /** The characters of the tuple `(" ", "\t", "\r", "\n")` that the lookahead compares against. */
  predicate IsBlankOrBreak(c: char) { IsBlank(c) || IsBreak(c) }

  /** The character after index `i - 1`, as `line[i]`, or `None` past the end. */
  function NextChar(line: string, i: nat): Option<char>
  {
    if i < |line| then Some(line[i]) else None
  }

  /** One iteration of the loop on `c`; `None` when it reads past the end of the line. */
  function TabsStep(st: TabsState, c: char, next: Option<char>, w: int, trim: bool): Option<TabsState>
    requires w > 0
  {
    if c == '\t' then
      Some(TabsState(st.result, "", st.tabs + "\t", st.pos + (w - st.pos % w)))
    else if c != ' ' then
      if !trim || !IsBreak(c) then
        Some(TabsState(st.result + st.tabs + st.spaces + [c], "", "", st.pos + |st.spaces| + 1))
      else
        Some(TabsState(st.result + [c], "", "", st.pos + 1))
    else if st.spaces == "" && st.tabs == "" && next.None? then
      None
    else if st.spaces == "" && st.tabs == "" && !IsBlankOrBreak(next.value) then
      Some(TabsState(st.result + " ", st.spaces, st.tabs, st.pos + 1))
    else
      var spaces := st.spaces + " ";
      if (st.pos + |spaces|) % w == 0 then
        Some(TabsState(st.result, "", st.tabs + "\t", st.pos + |spaces|))
      else
        Some(TabsState(st.result, spaces, st.tabs, st.pos))
  }

  /** The loop variables after the first `i` iterations over `line`. */
  function TabsRun(line: string, i: nat, w: int, trim: bool): Result<TabsState>
    requires w > 0 && i <= |line|
  {
    if i == 0 then Ok(TabsState("", "", "", 0))
    else match TabsRun(line, i - 1, w, trim)
      case Fail(e) => Fail(e)
      case Ok(st) =>
        match TabsStep(st, line[i - 1], NextChar(line, i), w, trim)
        case None => Fail(IndexError(i))
        case Some(st') => Ok(st')
  }

  /** What `fix_tabs(line, w, trim)` returns or raises; the pending runs left at the end are dropped. */
  function FixedTabs(line: string, w: int, trim: bool): Result<string>
    requires w > 0
  {
    match TabsRun(line, |line|, w, trim)
    case Ok(st) => Ok(st.result)
    case Fail(e) => Fail(e)
  }

  /** The loop of `fix_tabs`. */
  method FixTabs(line: string, tabWidth: int, trim: bool) returns (r: Result<string>)
    requires tabWidth > 0
    ensures r == FixedTabs(line, tabWidth, trim)
    ensures r.Fail? <==> |line| > 0 && line[|line| - 1] == ' ' && (|line| == 1 || !IsBlank(line[|line| - 2]))
    ensures r.Ok? ==> Visible(r.value) == Visible(line)
    ensures r.Ok? && !trim ==> Marks(r.value, tabWidth) == Marks(line, tabWidth)
  {
    var result, spaces, tabs := "", "", "";
    var pos: nat := 0;
    for i := 0 to |line|
      invariant TabsRun(line, i, tabWidth, trim) == Ok(TabsState(result, spaces, tabs, pos))
    {
      ghost var step := TabsStep(TabsState(result, spaces, tabs, pos), line[i], NextChar(line, i + 1), tabWidth, trim);
      assert TabsRun(line, i + 1, tabWidth, trim) == if step.None? then Fail(IndexError(i + 1)) else Ok(step.value);
      if line[i] == '\t' {
        tabs := tabs + "\t";
        var t := tabWidth - pos % tabWidth;
        pos := pos + t;
        spaces := "";
      } else if line[i] != ' ' {
        if !trim || !IsBreak(line[i]) {
          ghost var flushed := result + tabs + spaces;
          if |tabs| > 0 {
            result := result + tabs;
          } else {
            assert result + tabs == result;
          }
          if |spaces| > 0 {
            result := result + spaces;
            pos := pos + |spaces|;
          } else {
            assert result + spaces == result;
          }
          assert result == flushed;
        }
        tabs := "";
        spaces := "";
        result := result + [line[i]];
        pos := pos + 1;
      } else {
        if spaces == "" && tabs == "" {
          if i + 1 >= |line| {
            r := Fail(IndexError(i + 1));
            FixedTabsFailure(line, tabWidth, trim);
            return;
          }
          if !IsBlankOrBreak(line[i + 1]) {
            // a single space between two words is output as it is
            result := result + " ";
            pos := pos + 1;
            continue;
          }
        }
        spaces := spaces + " ";
        var cp := pos + |spaces|;
        if cp % tabWidth == 0 {
          tabs := tabs + "\t";
          pos := pos + |spaces|;
          spaces := "";
        }
      }
    }
    r := Ok(result);
    FixedTabsFailure(line, tabWidth, trim);
    FixedTabsKeepsVisible(line, tabWidth, trim);
    if !trim {
      FixedTabsKeepsColumns(line, tabWidth);
    }
  }

  // ---------------------------------------------------------------------------
  // When the lookahead fails.

  /** After the first `i` iterations nothing is pending. */
  predicate PendingEmptyBefore(line: string, i: nat, w: int, trim: bool)
    requires w > 0 && i <= |line|
  {
    TabsRun(line, i, w, trim).Ok? && TabsRun(line, i, w, trim).value.spaces == ""
      && TabsRun(line, i, w, trim).value.tabs == ""
  }

  /** The scan can only fail on its last character. */
  lemma {:induction false} TabsFailOnlyAtEnd(line: string, i: nat, w: int, trim: bool)
    requires w > 0 && i <= |line|
    ensures TabsRun(line, i, w, trim).Fail? ==> i == |line|
  {
    if i > 0 {
      TabsFailOnlyAtEnd(line, i - 1, w, trim);
    }
  }

  /**
   * Before a final space, nothing is pending exactly when the space is the
   * whole line or follows a visible character: a blank followed by a space is
   * always buffered.
   */
  lemma PendingBeforeLastSpace(line: string, w: int, trim: bool)
    requires w > 0 && |line| > 0 && line[|line| - 1] == ' '
    ensures PendingEmptyBefore(line, |line| - 1, w, trim) <==> |line| == 1 || !IsBlank(line[|line| - 2])
  {
    var n := |line| - 1;
    TabsFailOnlyAtEnd(line, n, w, trim);
    if n > 0 {
      if IsBlank(line[n - 1]) {
        TabsFailOnlyAtEnd(line, n - 1, w, trim);
        var st := TabsRun(line, n - 1, w, trim).value;
        assert NextChar(line, n) == Some(' ');
        assert TabsStep(st, line[n - 1], Some(' '), w, trim) == Some(TabsRun(line, n, w, trim).value);
        PendingStep(st, line[n - 1], Some(' '), w, trim);
      } else {
        TabsPendingEmpty(line, n, w, trim);
      }
    }
  }

  /**
   * `fix_tabs` raises `IndexError` at index `len(line)` exactly when the line
   * ends in a space that is either the whole line or follows a visible
   * character: only then is nothing pending when the look-ahead runs off the end.
   */
  lemma FixedTabsFailure(line: string, w: int, trim: bool)
    requires w > 0
    ensures FixedTabs(line, w, trim).Fail? <==>
      |line| > 0 && line[|line| - 1] == ' ' && (|line| == 1 || !IsBlank(line[|line| - 2]))
    ensures FixedTabs(line, w, trim).Fail? ==> FixedTabs(line, w, trim).error == IndexError(|line|)
  {
    if |line| > 0 {
      TabsFailOnlyAtEnd(line, |line| - 1, w, trim);
      if line[|line| - 1] == ' ' {
        PendingBeforeLastSpace(line, w, trim);
      }
    }
  }

  /** A line that ends in anything but a space, such as every line the driver builds, never fails. */
  lemma FixedTabsSucceeds(line: string, w: int, trim: bool)
    requires w > 0 && (line == [] || line[|line| - 1] != ' ')
    ensures FixedTabs(line, w, trim).Ok?
  {
    FixedTabsFailure(line, w, trim);
  }

  // ---------------------------------------------------------------------------
  // Invariants of the scan.

  lemma RunPrefix(line: string, i: nat)
    requires i < |line|
    ensures line[..i + 1] == line[..i] + [line[i]]
  {
  }

  /** The pending runs hold only spaces and only tabs. */
  lemma {:induction false} TabsShape(line: string, i: nat, w: int, trim: bool)
    requires w > 0 && i <= |line| && TabsRun(line, i, w, trim).Ok?
    ensures AllAre(TabsRun(line, i, w, trim).value.spaces, ' ')
    ensures AllAre(TabsRun(line, i, w, trim).value.tabs, '\t')
  {
    if i > 0 {
      TabsShape(line, i - 1, w, trim);
    }
  }

  /** Every character other than a space or a tab is output, in order; line breaks included. */
  lemma {:induction false} TabsKeepVisible(line: string, i: nat, w: int, trim: bool)
    requires w > 0 && i <= |line| && TabsRun(line, i, w, trim).Ok?
    ensures Visible(TabsRun(line, i, w, trim).value.result) == Visible(line[..i])
  {
    if i > 0 {
      TabsKeepVisible(line, i - 1, w, trim);
      TabsShape(line, i - 1, w, trim);
      var st := TabsRun(line, i - 1, w, trim).value;
      var c := line[i - 1];
      assert TabsStep(st, c, NextChar(line, i), w, trim) == Some(TabsRun(line, i, w, trim).value);
      VisibleStep(st, c, NextChar(line, i), w, trim);
      RunPrefix(line, i - 1);
      VisibleSnoc(line[..i - 1], c);
    }
  }

  /** One iteration outputs the character read, unless it is blank, and only blanks besides. */
  lemma VisibleStep(st: TabsState, c: char, next: Option<char>, w: int, trim: bool)
    requires w > 0 && TabsStep(st, c, next, w, trim).Some?
    requires AllAre(st.spaces, ' ') && AllAre(st.tabs, '\t')
    ensures Visible(TabsStep(st, c, next, w, trim).value.result) == Visible(st.result) + (if IsBlank(c) then [] else [c])
  {
    var r := TabsStep(st, c, next, w, trim).value.result;
    if c == '\t' {
      assert r == st.result;
    } else if c != ' ' {
      if !trim || !IsBreak(c) {
        assert r == (st.result + (st.tabs + st.spaces)) + [c];
        assert AllBlank(st.tabs + st.spaces);
        AppendBlanks(st.result, st.tabs + st.spaces, w);
        VisibleSnoc(st.result + (st.tabs + st.spaces), c);
      } else {
        assert r == st.result + [c];
        VisibleSnoc(st.result, c);
      }
    } else if r == st.result + " " {
      VisibleSnoc(st.result, ' ');
    } else {
      assert r == st.result;
    }
  }

  /** The column invariant of the scan over the input prefix `p`, as long as no break has been trimmed. */
  predicate ColumnsAgree(p: string, st: TabsState, w: int)
    requires w > 0
  {
    && Marks(st.result, w) == Marks(p, w)
    && ColumnAfter(st.result + st.tabs, w) == st.pos
    && st.pos + |st.spaces| == ColumnAfter(p, w)
    && st.pos % w + |st.spaces| < w
  }

  /**
   * Column preservation: as long as no break has been trimmed, every visible
   * character is output at its input display column; `pos` is the column
   * reached by the output and the pending tabs, and the pending spaces stay
   * short of the next tab stop.
   */
  lemma {:induction false} TabsKeepColumns(line: string, i: nat, w: int, trim: bool)
    requires w > 0 && i <= |line| && TabsRun(line, i, w, trim).Ok?
    requires !trim || NoBreaks(line[..i])
    ensures ColumnsAgree(line[..i], TabsRun(line, i, w, trim).value, w)
  {
    if i > 0 {
      RunPrefix(line, i - 1);
      assert NoBreaks(line[..i]) ==> NoBreaks(line[..i - 1]) && !IsBreak(line[i - 1]);
      TabsKeepColumns(line, i - 1, w, trim);
      TabsShape(line, i - 1, w, trim);
      var st := TabsRun(line, i - 1, w, trim).value;
      assert TabsStep(st, line[i - 1], NextChar(line, i), w, trim) == Some(TabsRun(line, i, w, trim).value);
      KeepColumnsStep(line[..i - 1], line[i - 1], NextChar(line, i), st, w, trim);
    }
  }

  lemma KeepColumnsStep(p: string, c: char, next: Option<char>, st: TabsState, w: int, trim: bool)
    requires w > 0 && (!trim || !IsBreak(c)) && TabsStep(st, c, next, w, trim).Some?
    requires AllAre(st.spaces, ' ') && AllAre(st.tabs, '\t')
    requires ColumnsAgree(p, st, w)
    ensures ColumnsAgree(p + [c], TabsStep(st, c, next, w, trim).value, w)
  {
    var st' := TabsStep(st, c, next, w, trim).value;
    if c == '\t' {
      assert st' == TabsState(st.result, "", st.tabs + "\t", NextStop(st.pos, w));
      TabCase(p, st, w);
    } else if c != ' ' {
      assert st' == TabsState(st.result + st.tabs + st.spaces + [c], "", "", st.pos + |st.spaces| + 1);
      VisibleCase(p, c, st, w);
    } else if st.spaces == "" && st.tabs == "" && !IsBlankOrBreak(next.value) {
      assert st' == TabsState(st.result + " ", "", "", st.pos + 1);
      SingleSpaceCase(p, st, w);
    } else {
      var k := |st.spaces| + 1;
      if (st.pos + k) % w == 0 {
        assert st' == TabsState(st.result, "", st.tabs + "\t", st.pos + k);
      } else {
        assert st' == TabsState(st.result, st.spaces + " ", st.tabs, st.pos);
      }
      SpaceCase(p, st, w);
    }
  }

  lemma TabCase(p: string, st: TabsState, w: int)
    requires w > 0 && ColumnsAgree(p, st, w)
    ensures ColumnsAgree(p + ['\t'], TabsState(st.result, "", st.tabs + "\t", NextStop(st.pos, w)), w)
  {
    ColumnAfterSnoc(p, '\t', w);
    TabStepColumns(st, w);
  }

  lemma VisibleCase(p: string, c: char, st: TabsState, w: int)
    requires w > 0 && !IsBlank(c) && AllAre(st.spaces, ' ') && AllAre(st.tabs, '\t') && ColumnsAgree(p, st, w)
    ensures ColumnsAgree(p + [c], TabsState(st.result + st.tabs + st.spaces + [c], "", "", st.pos + |st.spaces| + 1), w)
  {
    ColumnAfterSnoc(p, c, w);
    VisibleStepColumns(st, c, w);
    var r := st.result + st.tabs + st.spaces + [c];
    assert r + "" == r;
  }

  lemma SingleSpaceCase(p: string, st: TabsState, w: int)
    requires w > 0 && st.tabs == "" && st.spaces == "" && ColumnsAgree(p, st, w)
    ensures ColumnsAgree(p + [' '], TabsState(st.result + " ", "", "", st.pos + 1), w)
  {
    ColumnAfterSnoc(p, ' ', w);
    SingleSpaceColumns(st, w);
  }

  lemma SpaceCase(p: string, st: TabsState, w: int)
    requires w > 0 && ColumnsAgree(p, st, w)
    ensures var k := |st.spaces| + 1;
      if (st.pos + k) % w == 0 then
        ColumnsAgree(p + [' '], TabsState(st.result, "", st.tabs + "\t", st.pos + k), w)
      else
        ColumnsAgree(p + [' '], TabsState(st.result, st.spaces + " ", st.tabs, st.pos), w)
  {
    ColumnAfterSnoc(p, ' ', w);
    SpaceStepColumns(st, w);
  }

  /** A tab moves the pending tabs to the next stop, which the pending spaces had not reached. */
  lemma TabStepColumns(st: TabsState, w: int)
    requires w > 0 && st.pos % w + |st.spaces| < w
    requires ColumnAfter(st.result + st.tabs, w) == st.pos
    ensures ColumnAfter(st.result + (st.tabs + "\t"), w) == NextStop(st.pos, w)
    ensures NextStop(st.pos + |st.spaces|, w) == NextStop(st.pos, w)
    ensures NextStop(st.pos, w) % w == 0
  {
    assert st.result + (st.tabs + "\t") == (st.result + st.tabs) + ['\t'];
    ColumnAfterSnoc(st.result + st.tabs, '\t', w);
    NextStopWithinGap(st.pos, |st.spaces|, w);
    NextStopIsStop(st.pos, w);
  }

  /** A single space between words is output at once. */
  lemma SingleSpaceColumns(st: TabsState, w: int)
    requires w > 0 && st.tabs == "" && st.spaces == ""
    requires ColumnAfter(st.result + st.tabs, w) == st.pos
    ensures ColumnAfter(st.result + " " + "", w) == st.pos + 1
    ensures Marks(st.result + " ", w) == Marks(st.result, w)
    ensures (st.pos + 1) % w < w
  {
    assert st.result + st.tabs == st.result;
    assert st.result + " " + "" == st.result + [' '];
    ColumnAfterSnoc(st.result, ' ', w);
    AppendBlanks(st.result, " ", w);
  }

  /** Flushing the pending runs and a visible character keeps every column. */
  lemma VisibleStepColumns(st: TabsState, c: char, w: int)
    requires w > 0 && !IsBlank(c) && AllAre(st.spaces, ' ') && AllAre(st.tabs, '\t')
    requires ColumnAfter(st.result + st.tabs, w) == st.pos
    ensures Marks(st.result + st.tabs + st.spaces + [c], w)
         == Marks(st.result, w) + [Mark(st.pos + |st.spaces|, c)]
    ensures ColumnAfter(st.result + st.tabs + st.spaces + [c], w) == st.pos + |st.spaces| + 1
  {
    var flushed := st.result + st.tabs + st.spaces;
    assert flushed == st.result + (st.tabs + st.spaces);
    assert AllBlank(st.tabs + st.spaces);
    AppendBlanks(st.result, st.tabs + st.spaces, w);
    SpacesAreRepeat(st.spaces);
    ColumnAfterSpaces(st.result + st.tabs, |st.spaces|, w);
    ColumnAfterSnoc(flushed, c, w);
  }

  /** Buffering a space: either the run reaches the next stop and becomes a tab, or it stays short of it. */
  lemma SpaceStepColumns(st: TabsState, w: int)
    requires w > 0 && st.pos % w + |st.spaces| < w
    requires ColumnAfter(st.result + st.tabs, w) == st.pos
    ensures var k := |st.spaces| + 1;
      if (st.pos + k) % w == 0 then
        ColumnAfter(st.result + (st.tabs + "\t"), w) == st.pos + k && (st.pos + k) % w + 0 < w
      else
        st.pos % w + k < w
  {
    var k := |st.spaces| + 1;
    StopReached(st.pos, k, w);
    if (st.pos + k) % w == 0 {
      assert st.result + (st.tabs + "\t") == (st.result + st.tabs) + ['\t'];
      ColumnAfterSnoc(st.result + st.tabs, '\t', w);
    }
  }

  /**
   * The output never ends in a blank, except for a single space between words
   * whose next character `next` is still to come; with trimming on, no blank
   * precedes a break.
   */
  predicate Tidy(st: TabsState, next: Option<char>, trim: bool)
  {
    && (st.result == [] || !IsBlank(st.result[|st.result| - 1])
        || (st.result[|st.result| - 1] == ' ' && st.spaces == "" && st.tabs == ""
            && next.Some? && !IsBlankOrBreak(next.value)))
    && (trim ==> NoBlankBeforeBreak(st.result))
  }

  lemma {:induction false} TabsTidy(line: string, i: nat, w: int, trim: bool)
    requires w > 0 && i <= |line| && TabsRun(line, i, w, trim).Ok?
    ensures Tidy(TabsRun(line, i, w, trim).value, NextChar(line, i), trim)
  {
    if i > 0 {
      TabsTidy(line, i - 1, w, trim);
      TabsShape(line, i - 1, w, trim);
      var st := TabsRun(line, i - 1, w, trim).value;
      assert TabsStep(st, line[i - 1], NextChar(line, i), w, trim) == Some(TabsRun(line, i, w, trim).value);
      TidyStep(st, line[i - 1], NextChar(line, i), w, trim);
    }
  }

  lemma TidyStep(st: TabsState, c: char, next: Option<char>, w: int, trim: bool)
    requires w > 0 && Tidy(st, Some(c), trim) && TabsStep(st, c, next, w, trim).Some?
    requires AllAre(st.spaces, ' ') && AllAre(st.tabs, '\t')
    ensures Tidy(TabsStep(st, c, next, w, trim).value, next, trim)
  {
    var st' := TabsStep(st, c, next, w, trim).value;
    if c != ' ' && c != '\t' {
      if trim && IsBreak(c) {
        assert st'.result == st.result + [c];
        AppendKeepsNoBlankBeforeBreak(st.result, "", c);
      } else if trim {
        assert st'.result == st.result + (st.tabs + st.spaces) + [c];
        AppendKeepsNoBlankBeforeBreak(st.result, st.tabs + st.spaces, c);
      }
    } else if c == ' ' && st.spaces == "" && st.tabs == "" && !IsBlankOrBreak(next.value) {
      assert st'.result == st.result + [' '];
      if trim {
        AppendKeepsNoBlankBeforeBreak(st.result, [], ' ');
      }
    }
  }

  /** Appending a character after a run keeps "no blank before a break" when the join is clean. */
  lemma AppendKeepsNoBlankBeforeBreak(r: string, x: string, c: char)
    requires NoBlankBeforeBreak(r)
    requires IsBreak(c) ==> x == "" && (r == [] || !IsBlank(r[|r| - 1]))
    requires forall k :: 0 <= k < |x| ==> !IsBreak(x[k])
    ensures NoBlankBeforeBreak(r + x + [c])
  {
    var t := r + x + [c];
    forall k | 0 < k < |t| && IsBreak(t[k]) ensures !IsBlank(t[k - 1]) {
      if k < |r| {
        assert t[k] == r[k] && t[k - 1] == r[k - 1];
      } else if k >= |r| + |x| {
        assert t[k] == c;
        assert t[k - 1] == r[|r| - 1];
      }
    }
  }

  /** The output only grows as the scan proceeds. */
  lemma {:induction false} TabsGrow(line: string, i: nat, j: nat, w: int, trim: bool)
    requires w > 0 && i <= j <= |line| && TabsRun(line, j, w, trim).Ok?
    ensures TabsRun(line, i, w, trim).Ok?
    ensures TabsRun(line, i, w, trim).value.result <= TabsRun(line, j, w, trim).value.result
  {
    if i < j {
      TabsGrow(line, i, j - 1, w, trim);
    }
  }

  // ---------------------------------------------------------------------------
  // What `fix_tabs` returns.

  /** Every character other than a space or a tab is output, in order, whatever the trim setting. */
  lemma FixedTabsKeepsVisible(line: string, w: int, trim: bool)
    requires w > 0 && FixedTabs(line, w, trim).Ok?
    ensures Visible(FixedTabs(line, w, trim).value) == Visible(line)
  {
    TabsKeepVisible(line, |line|, w, trim);
    assert line[..|line|] == line;
  }

  /** With trimming off, re-expanding the output puts every visible character at its input column. */
  lemma FixedTabsKeepsColumns(line: string, w: int)
    requires w > 0 && FixedTabs(line, w, false).Ok?
    ensures Marks(FixedTabs(line, w, false).value, w) == Marks(line, w)
  {
    TabsKeepColumns(line, |line|, w, false);
    assert line[..|line|] == line;
  }

  /** With either trim setting, the visible characters before the first break keep their columns. */
  lemma FixedTabsKeepsColumnsBeforeBreak(line: string, k: nat, w: int, trim: bool)
    requires w > 0 && k <= |line| && NoBreaks(line[..k]) && FixedTabs(line, w, trim).Ok?
    ensures Marks(line[..k], w) <= Marks(FixedTabs(line, w, trim).value, w)
  {
    TabsGrow(line, k, |line|, w, trim);
    TabsKeepColumns(line, k, w, trim);
    var r, r' := TabsRun(line, k, w, trim).value.result, FixedTabs(line, w, trim).value;
    assert r' == r + r'[|r|..];
    MarksOfPrefix(r, r'[|r|..], w);
  }

  /** The output never ends in a blank, and with trimming on no blank precedes a break. */
  lemma FixedTabsOutputShape(line: string, w: int, trim: bool)
    requires w > 0 && FixedTabs(line, w, trim).Ok?
    ensures !EndsInBlank(FixedTabs(line, w, trim).value)
    ensures trim ==> NoBlankBeforeBreak(FixedTabs(line, w, trim).value)
  {
    TabsTidy(line, |line|, w, trim);
    assert NextChar(line, |line|) == None;
  }

  // ---------------------------------------------------------------------------
  // Lines that share a prefix.

  /**
   * The first `i` iterations see only `line[..i]` and the lookahead at `i`,
   * and the lookahead is read only after a space.
   */
  lemma {:induction false} TabsRunPrefix(a: string, b: string, i: nat, w: int, trim: bool)
    requires w > 0 && i <= |a| && i <= |b| && a[..i] == b[..i]
    requires i == 0 || a[i - 1] != ' ' || NextChar(a, i) == NextChar(b, i)
    ensures TabsRun(a, i, w, trim) == TabsRun(b, i, w, trim)
  {
    if i > 0 {
      assert a[..i - 1] == a[..i][..i - 1] && b[..i - 1] == b[..i][..i - 1];
      assert a[i - 1] == a[..i][i - 1] && b[i - 1] == b[..i][i - 1];
      TabsRunPrefix(a, b, i - 1, w, trim);
    }
  }

  lemma TabsRunOfPrefix(s: string, t: string, w: int, trim: bool)
    requires w > 0 && (s == [] || s[|s| - 1] != ' ')
    ensures TabsRun(s + t, |s|, w, trim) == TabsRun(s, |s|, w, trim)
  {
    assert (s + t)[..|s|] == s[..|s|];
    TabsRunPrefix(s + t, s, |s|, w, trim);
  }

  /** Blanks that are followed only by blanks (or a break, with `stop`) leave the output alone. */
  lemma {:induction false} BlankTail(line: string, k: nat, j: nat, w: int, trim: bool)
    requires w > 0 && k <= j <= |line| && AllBlank(line[k..j])
    requires j < |line| ==> IsBlankOrBreak(line[j])
    requires TabsRun(line, k, w, trim).Ok?
    requires j == |line| ==> TabsRun(line, j, w, trim).Ok?
    ensures TabsRun(line, j, w, trim).Ok?
    ensures TabsRun(line, j, w, trim).value.result == TabsRun(line, k, w, trim).value.result
  {
    if k < j {
      assert line[k..j - 1] == line[k..j][..j - k - 1];
      assert line[j - 1] == line[k..j][j - k - 1];
      BlankTail(line, k, j - 1, w, trim);
      BlankStep(TabsRun(line, j - 1, w, trim).value, line[j - 1], NextChar(line, j), w, trim);
    }
  }

  /** A blank followed by a blank, a break or nothing adds nothing to the output. */
  lemma BlankStep(st: TabsState, c: char, next: Option<char>, w: int, trim: bool)
    requires w > 0 && IsBlank(c) && (next.Some? ==> IsBlankOrBreak(next.value))
    ensures next.Some? ==> TabsStep(st, c, next, w, trim).Some?
    ensures TabsStep(st, c, next, w, trim).Some? ==> TabsStep(st, c, next, w, trim).value.result == st.result
  {
  }

  /** Blanks with nothing after them are dropped, whatever the trim setting. */
  lemma FixedTabsDropsTrailingBlanks(s: string, b: string, w: int, trim: bool)
    requires w > 0 && AllBlank(b) && (s == [] || s[|s| - 1] != ' ')
    requires FixedTabs(s + b, w, trim).Ok?
    ensures FixedTabs(s + b, w, trim) == FixedTabs(s, w, trim)
  {
    FixedTabsSucceeds(s, w, trim);
    TabsRunOfPrefix(s, b, w, trim);
    assert (s + b)[|s|..|s + b|] == b;
    BlankTail(s + b, |s|, |s + b|, w, trim);
  }

  /** With trimming on, the blanks right before a break are dropped. */
  lemma FixedTabsTrimsBeforeBreak(s: string, b: string, t: char, w: int)
    requires w > 0 && AllBlank(b) && IsBreak(t) && (s == [] || s[|s| - 1] != ' ')
    ensures FixedTabs(s, w, true).Ok?
    ensures FixedTabs(s + b + [t], w, true) == Ok(FixedTabs(s, w, true).value + [t])
  {
    var line := s + b + [t];
    var n := |s| + |b|;
    FixedTabsSucceeds(s, w, true);
    assert line == s + (b + [t]);
    TabsRunOfPrefix(s, b + [t], w, true);
    assert line[|s|..n] == b;
    assert line[n] == t;
    BlankTail(line, |s|, n, w, true);
    BreakStep(TabsRun(line, n, w, true).value, t, NextChar(line, n + 1), w);
  }

  /** With trimming on, a break flushes nothing that is pending. */
  lemma BreakStep(st: TabsState, c: char, next: Option<char>, w: int)
    requires w > 0 && IsBreak(c)
    ensures TabsStep(st, c, next, w, true) == Some(TabsState(st.result + [c], "", "", st.pos + 1))
  {
  }

  /** Once the last character read is visible, text without blanks is copied verbatim. */
  lemma {:induction false} VisibleTail(line: string, k: nat, j: nat, w: int, trim: bool)
    requires w > 0 && 0 < k <= j <= |line| && !IsBlank(line[k - 1]) && NoBlanks(line[k..j])
    requires TabsRun(line, k, w, trim).Ok?
    ensures TabsRun(line, j, w, trim).Ok?
    ensures TabsRun(line, j, w, trim).value
         == TabsState(TabsRun(line, k, w, trim).value.result + line[k..j], "", "",
                      TabsRun(line, k, w, trim).value.pos + (j - k))
  {
    if k < j {
      var c := line[j - 1];
      assert line[k..j - 1] == line[k..j][..j - k - 1];
      assert c == line[k..j][j - k - 1];
      VisibleTail(line, k, j - 1, w, trim);
      var st := TabsRun(line, j - 1, w, trim).value;
      CopyStep(st, c, NextChar(line, j), w, trim);
      assert line[k..j] == line[k..j - 1] + [c];
      assert st.result + [c] == TabsRun(line, k, w, trim).value.result + line[k..j];
    }
  }

  /** With nothing pending, a visible character is output as it is. */
  lemma CopyStep(st: TabsState, c: char, next: Option<char>, w: int, trim: bool)
    requires w > 0 && !IsBlank(c) && st.spaces == "" && st.tabs == ""
    ensures TabsStep(st, c, next, w, trim) == Some(TabsState(st.result + [c], "", "", st.pos + 1))
  {
    assert st.result + st.tabs + st.spaces + [c] == st.result + [c];
  }

  /** After a visible character, text without blanks is copied verbatim. */
  lemma FixedTabsCopiesTail(s: string, v: string, w: int, trim: bool)
    requires w > 0 && NoBlanks(v) && (s == [] || !IsBlank(s[|s| - 1]))
    ensures FixedTabs(s, w, trim).Ok?
    ensures FixedTabs(s + v, w, trim) == Ok(FixedTabs(s, w, trim).value + v)
  {
    FixedTabsSucceeds(s, w, trim);
    TabsRunOfPrefix(s, v, w, trim);
    if s == [] {
      assert s + v == v;
      if v != [] {
        assert "" + "" + "" + [v[0]] == [v[0]] && "" + [v[0]] == [v[0]];
        assert TabsRun(v, 1, w, trim) == Ok(TabsState([v[0]], "", "", 1));
        assert v[1..|v|] == v[1..];
        VisibleTail(v, 1, |v|, w, trim);
        assert [v[0]] + v[1..] == v;
      }
    } else {
      assert (s + v)[|s|..|s + v|] == v;
      assert (s + v)[|s| - 1] == s[|s| - 1];
      VisibleTail(s + v, |s|, |s + v|, w, trim);
    }
  }

  // ---------------------------------------------------------------------------
  // A blank run between two visible characters.

  /** At the start, or right after a visible character, nothing is pending. */
  lemma TabsPendingEmpty(line: string, i: nat, w: int, trim: bool)
    requires w > 0 && i <= |line| && (i == 0 || !IsBlank(line[i - 1])) && TabsRun(line, i, w, trim).Ok?
    ensures TabsRun(line, i, w, trim).value.spaces == "" && TabsRun(line, i, w, trim).value.tabs == ""
  {
  }

  /**
   * After a line that is empty or ends in a visible character, with no break
   * trimmed, nothing is pending and the output reaches the line's own column.
   */
  lemma {:induction false} FixedTabsReachesColumn(s: string, w: int, trim: bool)
    requires w > 0 && (s == [] || !IsBlank(s[|s| - 1])) && (!trim || NoBreaks(s))
    ensures FixedTabs(s, w, trim).Ok?
    ensures TabsRun(s, |s|, w, trim).value.spaces == "" && TabsRun(s, |s|, w, trim).value.tabs == ""
    ensures ColumnAfter(FixedTabs(s, w, trim).value, w) == ColumnAfter(s, w)
  {
    FixedTabsSucceeds(s, w, trim);
    TabsPendingEmpty(s, |s|, w, trim);
    assert s[..|s|] == s;
    TabsKeepColumns(s, |s|, w, trim);
    var st := TabsRun(s, |s|, w, trim).value;
    assert st.result + st.tabs == st.result;
  }

  /** A blank that is not a lone space before a word is buffered: nothing is output, and something is pending. */
  lemma PendingStep(st: TabsState, c: char, next: Option<char>, w: int, trim: bool)
    requires w > 0 && IsBlank(c) && TabsStep(st, c, next, w, trim).Some?
    requires c == '\t' || st.spaces != "" || st.tabs != "" || next.None? || IsBlankOrBreak(next.value)
    ensures TabsStep(st, c, next, w, trim).value.result == st.result
    ensures TabsStep(st, c, next, w, trim).value.spaces != "" || TabsStep(st, c, next, w, trim).value.tabs != ""
  {
  }

  /** A blank run without its last character is a blank run. */
  lemma BlankRunInit(line: string, k: nat, j: nat)
    requires k < j <= |line| && AllBlank(line[k..j])
    ensures AllBlank(line[k..j - 1]) && IsBlank(line[j - 1])
  {
    assert line[k..j - 1] == line[k..j][..j - k - 1];
    assert line[j - 1] == line[k..j][j - k - 1];
  }

  /**
   * Inside a blank run read from a state with nothing pending, nothing is
   * output and, once a blank has been read, something is pending; unless the
   * run is a single space before a word.
   */
  lemma {:induction false} RunPending(line: string, k: nat, j: nat, w: int, trim: bool)
    requires w > 0 && k <= j <= |line| && AllBlank(line[k..j]) && TabsRun(line, j, w, trim).Ok?
    requires TabsRun(line, k, w, trim).Ok?
    requires TabsRun(line, k, w, trim).value.spaces == "" && TabsRun(line, k, w, trim).value.tabs == ""
    requires !(j == k + 1 && line[k] == ' ' && j < |line| && !IsBlankOrBreak(line[j]))
    ensures TabsRun(line, j, w, trim).value.result == TabsRun(line, k, w, trim).value.result
    ensures j > k ==> TabsRun(line, j, w, trim).value.spaces != "" || TabsRun(line, j, w, trim).value.tabs != ""
  {
    if k < j {
      BlankRunInit(line, k, j);
      TabsFailOnlyAtEnd(line, j - 1, w, trim);
      RunPending(line, k, j - 1, w, trim);
      var st := TabsRun(line, j - 1, w, trim).value;
      assert TabsStep(st, line[j - 1], NextChar(line, j), w, trim) == Some(TabsRun(line, j, w, trim).value);
      PendingStep(st, line[j - 1], NextChar(line, j), w, trim);
    }
  }

  /**
   * The blanks `fix_tabs` writes for a run from display column `from` to
   * column `to`: the spaces themselves when no tab stop lies in between,
   * otherwise a tab for each stop reached and then the spaces past the last one.
   */
  function RunBlanks(from: nat, to: nat, w: int): (r: string)
    requires w > 0 && from <= to
    ensures AllBlank(r)
  {
    if to / w <= from / w then Repeat(' ', to - from)
    else Repeat('\t', to / w - from / w) + Repeat(' ', to % w)
  }

  /** A run that reaches no stop stays within the quotient of its start. */
  lemma {:induction false} NoStopQuotient(from: nat, k: nat, w: int)
    requires w > 0 && from % w + k < w
    ensures (from + k) / w == from / w
  {
    assert from == from / w * w + from % w;
    ModUnique(from + k, from / w, from % w + k, w);
  }

  /** A run that ends on a stop `pos` and then `k < w` spaces further. */
  lemma {:induction false} PastStopQuotient(pos: nat, k: nat, w: int)
    requires w > 0 && pos % w == 0 && k < w
    ensures (pos + k) / w == pos / w && (pos + k) % w == k
  {
    assert pos == pos / w * w + pos % w;
    ModUnique(pos + k, pos / w, k, w);
  }

  /** The last stop at or before `to`, followed by the spaces past it, is `to`. */
  lemma {:induction false} LastStopSpaces(pos: nat, to: nat, w: int)
    requires w > 0 && pos % w == 0 && pos / w == to / w
    ensures pos + to % w == to
  {
    assert pos == pos / w * w + pos % w;
    assert to == to / w * w + to % w;
  }

  /** Written after a string ending at column `from`, the run's blanks end at column `to`. */
  lemma {:induction false} ColumnAfterRunBlanks(r: string, to: nat, w: int)
    requires w > 0 && ColumnAfter(r, w) <= to
    ensures ColumnAfter(r + RunBlanks(ColumnAfter(r, w), to, w), w) == to
  {
    var from := ColumnAfter(r, w);
    if to / w <= from / w {
      assert RunBlanks(from, to, w) == Repeat(' ', to - from);
      ColumnAfterSpaces(r, to - from, w);
    } else {
      var m := to / w - from / w;
      var t := r + Repeat('\t', m);
      assert RunBlanks(from, to, w) == Repeat('\t', m) + Repeat(' ', to % w);
      assert r + RunBlanks(from, to, w) == t + Repeat(' ', to % w);
      ColumnAfterTabsFrom(r, m, w);
      ColumnAfterSpaces(t, to % w, w);
      LastStopSpaces(ColumnAfter(t, w), to, w);
    }
  }

  /** The pending tabs and spaces at the end of a run, in columns: `m` tabs from `from` to `pos`, then `k` spaces. */
  lemma {:induction false} RunBlanksOfPending(from: nat, m: nat, k: nat, pos: nat, to: nat, w: int)
    requires w > 0 && from <= pos && pos + k == to && pos % w + k < w
    requires m == 0 ==> pos == from
    requires m > 0 ==> pos % w == 0 && pos / w == from / w + m
    ensures Repeat('\t', m) + Repeat(' ', k) == RunBlanks(from, to, w)
  {
    if m == 0 {
      NoStopQuotient(from, k, w);
      assert Repeat('\t', 0) + Repeat(' ', k) == Repeat(' ', k);
    } else {
      PastStopQuotient(pos, k, w);
    }
  }

  /** The pending tabs and spaces at the end of a run are the run's blanks, by the column invariant. */
  lemma {:induction false} PendingRunBlanks(r: string, m: nat, k: nat, pos: nat, to: nat, w: int)
    requires w > 0 && ColumnAfter(r + Repeat('\t', m), w) == pos && pos + k == to && pos % w + k < w
    ensures ColumnAfter(r, w) <= to
    ensures Repeat('\t', m) + Repeat(' ', k) == RunBlanks(ColumnAfter(r, w), to, w)
  {
    ColumnAfterTabsFrom(r, m, w);
    ColumnAfterMonotone(r, Repeat('\t', m), w);
    RunBlanksOfPending(ColumnAfter(r, w), m, k, pos, to, w);
  }

  /** At the end of the run the pending tabs and spaces are the run's blanks, by the column invariant. */
  lemma {:induction false} CollapseColumns(line: string, n: nat, s: string, b: string, w: int, trim: bool)
    requires w > 0 && n <= |line| && line[..n] == s + b && AllBlank(b) && (!trim || NoBreaks(s))
    requires TabsRun(line, n, w, trim).Ok?
    requires ColumnAfter(TabsRun(line, n, w, trim).value.result, w) == ColumnAfter(s, w)
    ensures ColumnAfter(s, w) <= ColumnAfter(s + b, w)
    ensures TabsRun(line, n, w, trim).value.tabs + TabsRun(line, n, w, trim).value.spaces
         == RunBlanks(ColumnAfter(s, w), ColumnAfter(s + b, w), w)
  {
    assert NoBreaks(s) ==> NoBreaks(s + b);
    TabsKeepColumns(line, n, w, trim);
    TabsShape(line, n, w, trim);
    var st := TabsRun(line, n, w, trim).value;
    SpacesAreRepeat(st.spaces);
    assert st.tabs == Repeat('\t', |st.tabs|);
    PendingRunBlanks(st.result, |st.tabs|, |st.spaces|, st.pos, ColumnAfter(s + b, w), w);
  }

  /**
   * The state of the scan once a blank run `line[k..n]` is read, from nothing
   * pending, when the run is not a single space before a word: nothing new is
   * output, and the run's blanks are pending.
   */
  lemma {:induction false} CollapseRun(line: string, k: nat, n: nat, w: int, trim: bool)
    requires w > 0 && k <= n < |line| && (k == 0 || !IsBlank(line[k - 1]))
    requires AllBlank(line[k..n]) && !IsBlank(line[n])
    requires !(n == k + 1 && line[k] == ' ' && !IsBreak(line[n]))
    requires !trim || NoBreaks(line[..k])
    ensures TabsRun(line, k, w, trim).Ok? && TabsRun(line, n, w, trim).Ok?
    ensures TabsRun(line, n, w, trim).value.result == TabsRun(line, k, w, trim).value.result
    ensures ColumnAfter(line[..k], w) <= ColumnAfter(line[..n], w)
    ensures TabsRun(line, n, w, trim).value.tabs + TabsRun(line, n, w, trim).value.spaces
         == RunBlanks(ColumnAfter(line[..k], w), ColumnAfter(line[..n], w), w)
  {
    TabsFailOnlyAtEnd(line, n, w, trim);
    TabsFailOnlyAtEnd(line, k, w, trim);
    TabsPendingEmpty(line, k, w, trim);
    RunPending(line, k, n, w, trim);
    TabsKeepColumns(line, k, w, trim);
    var st := TabsRun(line, k, w, trim).value;
    assert st.result + st.tabs == st.result;
    assert line[..n] == line[..k] + line[k..n];
    CollapseColumns(line, n, line[..k], line[k..n], w, trim);
  }

  /** A visible character flushes the pending tabs and spaces, then is output. */
  lemma FlushStep(st: TabsState, c: char, next: Option<char>, w: int, trim: bool)
    requires w > 0 && !IsBlank(c) && (!trim || !IsBreak(c))
    ensures TabsStep(st, c, next, w, trim)
         == Some(TabsState(st.result + (st.tabs + st.spaces) + [c], "", "", st.pos + |st.spaces| + 1))
  {
    assert st.result + st.tabs + st.spaces + [c] == st.result + (st.tabs + st.spaces) + [c];
  }

  /** A line that ends in the visible character after the blank run `line[k..n]`. */
  lemma {:induction false} CollapseEnd(line: string, k: nat, n: nat, w: int, trim: bool)
    requires w > 0 && k <= n && n + 1 == |line| && (k == 0 || !IsBlank(line[k - 1]))
    requires AllBlank(line[k..n]) && !IsBlank(line[n])
    requires !(n == k + 1 && line[k] == ' ' && !IsBreak(line[n]))
    requires !trim || (NoBreaks(line[..k]) && !IsBreak(line[n]))
    ensures TabsRun(line, k, w, trim).Ok?
    ensures ColumnAfter(line[..k], w) <= ColumnAfter(line[..n], w)
    ensures FixedTabs(line, w, trim)
         == Ok(TabsRun(line, k, w, trim).value.result + RunBlanks(ColumnAfter(line[..k], w), ColumnAfter(line[..n], w), w) + [line[n]])
  {
    CollapseRun(line, k, n, w, trim);
    var st := TabsRun(line, n, w, trim).value;
    FlushStep(st, line[n], NextChar(line, n + 1), w, trim);
  }

  lemma ThreeParts(s: string, b: string, c: char)
    ensures (s + b + [c])[..|s|] == s && (s + b + [c])[..|s| + |b|] == s + b
    ensures (s + b + [c])[|s|..|s| + |b|] == b && (s + b + [c])[|s| + |b|] == c
    ensures s + b + [c] == s + (b + [c])
  {
  }

  /** The line `s + b + [c]` of the collapse rule, before the tail without blanks. */
  lemma {:induction false} CollapseLine(s: string, b: string, c: char, w: int, trim: bool)
    requires w > 0 && (s == [] || !IsBlank(s[|s| - 1])) && AllBlank(b) && !IsBlank(c)
    requires b != " " || IsBreak(c)
    requires !trim || (NoBreaks(s) && !IsBreak(c))
    ensures FixedTabs(s, w, trim).Ok?
    ensures ColumnAfter(s, w) <= ColumnAfter(s + b, w)
    ensures FixedTabs(s + b + [c], w, trim)
         == Ok(FixedTabs(s, w, trim).value + RunBlanks(ColumnAfter(s, w), ColumnAfter(s + b, w), w) + [c])
  {
    var line := s + b + [c];
    var n := |s| + |b|;
    ThreeParts(s, b, c);
    if |b| == 1 && b[0] == ' ' {
      assert b == " ";
    }
    CollapseEnd(line, |s|, n, w, trim);
    assert TabsRun(line, |s|, w, trim) == TabsRun(s, |s|, w, trim) by {
      assert line == s + (b + [c]);
      TabsRunOfPrefix(s, b + [c], w, trim);
    }
  }

  /**
   * The collapse rule: after a prefix that is empty or ends in a visible
   * character, a blank run before a visible character `c` (other than a single
   * space before a word) is written as one tab per tab stop it reaches and
   * then the spaces past the last stop, or as plain spaces if it reaches no
   * stop. With trimming on, the prefix must hold no break, since a trimmed
   * break leaves `pos` at the untrimmed column.
   */
  lemma {:induction false} FixedTabsCollapse(s: string, b: string, c: char, v: string, w: int, trim: bool)
    requires w > 0 && (s == [] || !IsBlank(s[|s| - 1])) && AllBlank(b) && !IsBlank(c) && NoBlanks(v)
    requires b != " " || IsBreak(c)
    requires !trim || (NoBreaks(s) && !IsBreak(c))
    ensures FixedTabs(s, w, trim).Ok?
    ensures ColumnAfter(s, w) <= ColumnAfter(s + b, w)
    ensures FixedTabs(s + b + [c] + v, w, trim)
         == Ok(FixedTabs(s, w, trim).value + RunBlanks(ColumnAfter(s, w), ColumnAfter(s + b, w), w) + [c] + v)
  {
    CollapseLine(s, b, c, w, trim);
    FixedTabsCopiesTail(s + b + [c], v, w, trim);
  }

  /** The line `s + " " + [c]` of the single-space rule, before the tail without blanks. */
  lemma {:induction false} SingleSpaceLine(s: string, c: char, w: int, trim: bool)
    requires w > 0 && (s == [] || !IsBlank(s[|s| - 1])) && !IsBlank(c) && !IsBreak(c)
    ensures FixedTabs(s, w, trim).Ok?
    ensures FixedTabs(s + " " + [c], w, trim) == Ok(FixedTabs(s, w, trim).value + " " + [c])
  {
    var line := s + " " + [c];
    var n := |s|;
    FixedTabsSucceeds(s, w, trim);
    assert line == s + (" " + [c]);
    TabsRunOfPrefix(s, " " + [c], w, trim);
    TabsPendingEmpty(s, n, w, trim);
    var st := TabsRun(line, n, w, trim).value;
    assert line[n] == ' ' && line[n + 1] == c && NextChar(line, n + 1) == Some(c);
    var st1 := TabsState(st.result + " ", "", "", st.pos + 1);
    assert TabsRun(line, n + 1, w, trim) == Ok(st1);
    CopyStep(st1, c, NextChar(line, n + 2), w, trim);
    assert TabsRun(line, n + 2, w, trim) == Ok(TabsState(st1.result + [c], "", "", st1.pos + 1));
  }

  /**
   * The single-space rule: after a prefix that is empty or ends in a visible
   * character, one space before a word is written as it is, at every tab
   * width and wherever it falls, even on a tab stop.
   */
  lemma {:induction false} FixedTabsSingleSpace(s: string, c: char, v: string, w: int, trim: bool)
    requires w > 0 && (s == [] || !IsBlank(s[|s| - 1])) && !IsBlank(c) && !IsBreak(c) && NoBlanks(v)
    ensures FixedTabs(s, w, trim).Ok?
    ensures FixedTabs(s + " " + [c] + v, w, trim) == Ok(FixedTabs(s, w, trim).value + " " + [c] + v)
  {
    SingleSpaceLine(s, c, w, trim);
    FixedTabsCopiesTail(s + " " + [c], v, w, trim);
  }

  /**
   * Indentation: a line made of a blank run, a visible character and text
   * without blanks comes out as one tab per tab stop the leading run reaches,
   * then the spaces left over, then the text. At tab width 1 a single
   * leading space before a word is the exception, kept by the single-space rule.
   */
  lemma {:induction false} FixedTabsIndent(b: string, c: char, v: string, w: int, trim: bool)
    requires w > 0 && AllBlank(b) && !IsBlank(c) && NoBlanks(v)
    requires !trim || !IsBreak(c)
    requires w > 1 || b != " " || IsBreak(c)
    ensures FixedTabs(b + [c] + v, w, trim)
         == Ok(Repeat('\t', ColumnAfter(b, w) / w) + Repeat(' ', ColumnAfter(b, w) % w) + [c] + v)
  {
    LeadingRunBlanks(ColumnAfter(b, w), w);
    if b == " " && !IsBreak(c) {
      IndentSingleSpace(c, v, w, trim);
      LeadingSpace(w);
    } else {
      IndentCollapse(b, c, v, w, trim);
    }
  }

  /** The width-1 exception aside, a single leading space before a visible character is kept. */
  lemma {:induction false} IndentSingleSpace(c: char, v: string, w: int, trim: bool)
    requires w > 1 && !IsBlank(c) && !IsBreak(c) && NoBlanks(v)
    ensures FixedTabs(" " + [c] + v, w, trim) == Ok(" " + [c] + v)
  {
    var e: string := [];
    assert FixedTabs(e, w, trim) == Ok(e);
    FixedTabsSingleSpace(e, c, v, w, trim);
    assert e + " " + [c] + v == " " + [c] + v;
  }

  /** Any other leading run becomes the blanks from column 0 to the column the run reaches. */
  lemma {:induction false} IndentCollapse(b: string, c: char, v: string, w: int, trim: bool)
    requires w > 0 && AllBlank(b) && !IsBlank(c) && NoBlanks(v)
    requires !trim || !IsBreak(c)
    requires b != " " || IsBreak(c)
    ensures FixedTabs(b + [c] + v, w, trim) == Ok(RunBlanks(0, ColumnAfter(b, w), w) + [c] + v)
  {
    var e: string := [];
    assert e + b == b && ColumnAfter(e, w) == 0 && FixedTabs(e, w, trim) == Ok(e);
    FixedTabsCollapse(e, b, c, v, w, trim);
    var blanks := RunBlanks(0, ColumnAfter(b, w), w);
    assert e + b + [c] + v == b + [c] + v;
    assert e + blanks + [c] + v == blanks + [c] + v;
  }

  /** From column 0, a run's blanks are a tab per stop and then the spaces past the last one. */
  lemma {:induction false} LeadingRunBlanks(col: nat, w: int)
    requires w > 0
    ensures RunBlanks(0, col, w) == Repeat('\t', col / w) + Repeat(' ', col % w)
  {
    if col / w <= 0 {
      ModUnique(col, 0, col, w);
      assert Repeat('\t', 0) + Repeat(' ', col) == Repeat(' ', col);
    }
  }

  /** A single leading space reaches column 1, short of the first stop when `w > 1`. */
  lemma LeadingSpace(w: int)
    requires w > 1
    ensures Repeat('\t', ColumnAfter(" ", w) / w) + Repeat(' ', ColumnAfter(" ", w) % w) == " "
  {
    assert ColumnAfter(" ", w) == 1 by { assert " "[..0] == []; }
    ModUnique(1, 0, 1, w);
    assert Repeat('\t', 0) + Repeat(' ', 1) == " ";
  }

  // ---------------------------------------------------------------------------
  // Running `fix_tabs` twice.

  /** `x` without its trailing blanks. */
  function DropTrailingBlanks(x: string): (r: string)
    ensures r <= x && AllBlank(x[|r|..])
    ensures r == [] || !IsBlank(r[|r| - 1])
  {
    if x == [] || !IsBlank(x[|x| - 1]) then x
    else
      var r := DropTrailingBlanks(x[..|x| - 1]);
      assert x[|r|..] == x[..|x| - 1][|r|..] + [x[|x| - 1]];
      r
  }

  /** No line break stands before the last character. */
  predicate BreaksOnlyAtEnd(line: string)
  {
    line == [] || NoBreaks(line[..|line| - 1])
  }

  /** A prefix that stops short of the last character has no break. */
  lemma PrefixBeforeEnd(line: string, s: string)
    requires BreaksOnlyAtEnd(line) && s <= line && |s| < |line|
    ensures NoBreaks(s) && BreaksOnlyAtEnd(s)
  {
    assert forall i :: 0 <= i < |s| ==> s[i] == line[..|line| - 1][i];
  }

  /** Idempotence for `s + b + [c]` with a break `c` and trimming on, from idempotence for `s`. */
  lemma {:induction false} AgainTrimmedBreak(s: string, b: string, c: char, w: int)
    requires w > 0 && (s == [] || !IsBlank(s[|s| - 1])) && AllBlank(b) && IsBreak(c)
    requires FixedTabs(s, w, true).Ok? && FixedTabs(FixedTabs(s, w, true).value, w, true) == FixedTabs(s, w, true)
    ensures FixedTabs(s + b + [c], w, true).Ok?
    ensures FixedTabs(FixedTabs(s + b + [c], w, true).value, w, true) == FixedTabs(s + b + [c], w, true)
  {
    var out := FixedTabs(s, w, true).value;
    FixedTabsOutputShape(s, w, true);
    FixedTabsTrimsBeforeBreak(s, b, c, w);
    FixedTabsTrimsBeforeBreak(out, "", c, w);
    assert out + "" + [c] == out + [c];
  }

  /** Idempotence for `s + " " + [c]` with a word `c`, from idempotence for `s`. */
  lemma {:induction false} AgainSingleSpace(s: string, c: char, w: int, trim: bool)
    requires w > 0 && (s == [] || !IsBlank(s[|s| - 1])) && !IsBlank(c) && !IsBreak(c)
    requires FixedTabs(s, w, trim).Ok? && FixedTabs(FixedTabs(s, w, trim).value, w, trim) == FixedTabs(s, w, trim)
    ensures FixedTabs(s + " " + [c], w, trim).Ok?
    ensures FixedTabs(FixedTabs(s + " " + [c], w, trim).value, w, trim) == FixedTabs(s + " " + [c], w, trim)
  {
    var out := FixedTabs(s, w, trim).value;
    FixedTabsOutputShape(s, w, trim);
    SingleSpaceLine(s, c, w, trim);
    SingleSpaceLine(out, c, w, trim);
  }

  /** Idempotence for `s + b + [c]` under the collapse rule, from idempotence for `s`. */
  lemma {:induction false} AgainCollapse(s: string, b: string, c: char, w: int, trim: bool)
    requires w > 0 && (s == [] || !IsBlank(s[|s| - 1])) && AllBlank(b) && !IsBlank(c)
    requires b != " " || IsBreak(c)
    requires !trim || (NoBreaks(s) && !IsBreak(c))
    requires FixedTabs(s, w, trim).Ok? && FixedTabs(FixedTabs(s, w, trim).value, w, trim) == FixedTabs(s, w, trim)
    ensures FixedTabs(s + b + [c], w, trim).Ok?
    ensures FixedTabs(FixedTabs(s + b + [c], w, trim).value, w, trim) == FixedTabs(s + b + [c], w, trim)
  {
    var out := FixedTabs(s, w, trim).value;
    FixedTabsOutputShape(s, w, trim);
    if trim {
      FixedTabsKeepsVisible(s, w, trim);
      BreaksAreVisible(s);
      BreaksAreVisible(out);
    }
    CollapseLine(s, b, c, w, trim);
    FixedTabsReachesColumn(s, w, trim);
    var blanks := RunBlanks(ColumnAfter(s, w), ColumnAfter(s + b, w), w);
    ColumnAfterRunBlanks(out, ColumnAfter(s + b, w), w);
    if blanks == " " && !IsBreak(c) {
      SingleSpaceLine(out, c, w, trim);
    } else {
      CollapseLine(out, blanks, c, w, trim);
    }
  }

  /** Idempotence for a line that ends in a visible character, from idempotence for the part before its last blank run. */
  lemma {:induction false} AgainLastVisible(s: string, b: string, c: char, w: int, trim: bool)
    requires w > 0 && (s == [] || !IsBlank(s[|s| - 1])) && AllBlank(b) && !IsBlank(c)
    requires !trim || NoBreaks(s)
    requires FixedTabs(s, w, trim).Ok? && FixedTabs(FixedTabs(s, w, trim).value, w, trim) == FixedTabs(s, w, trim)
    ensures FixedTabs(s + b + [c], w, trim).Ok?
    ensures FixedTabs(FixedTabs(s + b + [c], w, trim).value, w, trim) == FixedTabs(s + b + [c], w, trim)
  {
    if trim && IsBreak(c) {
      AgainTrimmedBreak(s, b, c, w);
    } else if b == " " && !IsBreak(c) {
      AgainSingleSpace(s, c, w, trim);
    } else {
      AgainCollapse(s, b, c, w, trim);
    }
  }

  /** Idempotence for a line that ends in blanks, from idempotence for the line without them. */
  lemma {:induction false} AgainTrailingBlanks(line: string, w: int, trim: bool)
    requires w > 0 && FixedTabs(line, w, trim).Ok? && FixedTabs(DropTrailingBlanks(line), w, trim).Ok?
    requires FixedTabs(FixedTabs(DropTrailingBlanks(line), w, trim).value, w, trim) == FixedTabs(DropTrailingBlanks(line), w, trim)
    ensures FixedTabs(FixedTabs(line, w, trim).value, w, trim) == FixedTabs(line, w, trim)
  {
    var s := DropTrailingBlanks(line);
    assert line == s + line[|s|..];
    FixedTabsDropsTrailingBlanks(s, line[|s|..], w, trim);
  }

  /** Idempotence for a line that ends in a visible character, from idempotence for the part before its last blank run. */
  lemma {:induction false} AgainEndsVisible(line: string, w: int, trim: bool)
    requires w > 0 && |line| > 0 && !IsBlank(line[|line| - 1])
    requires !trim || NoBreaks(DropTrailingBlanks(line[..|line| - 1]))
    requires FixedTabs(DropTrailingBlanks(line[..|line| - 1]), w, trim).Ok?
    requires FixedTabs(FixedTabs(DropTrailingBlanks(line[..|line| - 1]), w, trim).value, w, trim)
          == FixedTabs(DropTrailingBlanks(line[..|line| - 1]), w, trim)
    ensures FixedTabs(line, w, trim).Ok?
    ensures FixedTabs(FixedTabs(line, w, trim).value, w, trim) == FixedTabs(line, w, trim)
  {
    var p := line[..|line| - 1];
    var s := DropTrailingBlanks(p);
    assert p == s + p[|s|..];
    assert line == s + p[|s|..] + [line[|line| - 1]];
    AgainLastVisible(s, p[|s|..], line[|line| - 1], w, trim);
  }

  /**
   * Fixing a line that `fix_tabs` has already fixed changes nothing, with
   * trimming off, and with trimming on when no break stands before the last
   * character (a break in the middle of the line is where trimming shifts `pos`).
   */
  lemma {:induction false} FixedTabsIdempotent(line: string, w: int, trim: bool)
    requires w > 0 && FixedTabs(line, w, trim).Ok?
    requires trim ==> BreaksOnlyAtEnd(line)
    ensures FixedTabs(FixedTabs(line, w, trim).value, w, trim) == FixedTabs(line, w, trim)
    decreases |line|
  {
    if line != [] {
      var blankEnd := IsBlank(line[|line| - 1]);
      var s := DropTrailingBlanks(if blankEnd then line else line[..|line| - 1]);
      assert |s| < |line|;
      if trim {
        PrefixBeforeEnd(line, s);
      }
      FixedTabsSucceeds(s, w, trim);
      FixedTabsIdempotent(s, w, trim);
      if blankEnd {
        AgainTrailingBlanks(line, w, trim);
      } else {
        AgainEndsVisible(line, w, trim);
      }
    }
  }

  /** A line that ends in a visible character, such as `"\n"`, is fixed without error and still ends in it. */
  lemma FixedTabsKeepsLastVisible(line: string, w: int, trim: bool)
    requires w > 0 && |line| > 0 && !IsBlank(line[|line| - 1])
    ensures FixedTabs(line, w, trim).Ok?
    ensures var r := FixedTabs(line, w, trim).value; |r| > 0 && r[|r| - 1] == line[|line| - 1]
  {
    FixedTabsSucceeds(line, w, trim);
  }
}
