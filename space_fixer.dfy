/**
 * `fix_spaces`: expand every tab to the spaces that reach the same tab stop,
 * optionally dropping the blanks that stand right before a line break.
 *
 * `FixSpaces` is the loop of the source; `SpacesRun` is the same scan as a fold
 * over the prefixes of the line, and the lemmas state what the scan guarantees.
 */
module SpaceFixer {
  import opened Columns

  /** The loop variables of `fix_spaces`: the output so far, the pending blanks and `pos`. */
  datatype SpacesState = SpacesState(result: string, spaces: string, pos: nat)

  /** One iteration of the loop on character `c`. */
  function SpacesStep(st: SpacesState, c: char, w: int, trim: bool): SpacesState
    requires w > 0
  {
    if c != '\t' then
      if c == ' ' then SpacesState(st.result, st.spaces + " ", st.pos)
      else if !trim || !IsBreak(c) then SpacesState(st.result + st.spaces + [c], "", st.pos + |st.spaces| + 1)
      else SpacesState(st.result + [c], "", st.pos + 1)
    else
      var t := w - (st.pos + |st.spaces|) % w;
      SpacesState(st.result, st.spaces + Repeat(' ', t), st.pos)
  }

  /** The loop variables after the loop has consumed `s`. */
  function SpacesRun(s: string, w: int, trim: bool): SpacesState
    requires w > 0
  {
    if s == [] then SpacesState("", "", 0)
    else SpacesStep(SpacesRun(s[..|s| - 1], w, trim), s[|s| - 1], w, trim)
  }

  /** What `fix_spaces(line, w, trim)` returns: the pending run left at the end is dropped. */
  function FixedSpaces(line: string, w: int, trim: bool): string
    requires w > 0
  {
    SpacesRun(line, w, trim).result
  }

  /** The loop of `fix_spaces`. */
  method FixSpaces(line: string, tabWidth: int, trim: bool) returns (result: string)
    requires tabWidth > 0
    ensures result == FixedSpaces(line, tabWidth, trim)
    ensures NoTabs(result)
    ensures Visible(result) == Visible(line)
    ensures !trim ==> Marks(result, tabWidth) == Marks(line, tabWidth)
  {
    result := "";
    var spaces := "";
    var pos: nat := 0;
    for i := 0 to |line|
      invariant SpacesRun(line[..i], tabWidth, trim) == SpacesState(result, spaces, pos)
    {
      SnocInit(line[..i], line[i]);
      assert line[..i + 1] == line[..i] + [line[i]];
      assert SpacesRun(line[..i + 1], tabWidth, trim) == SpacesStep(SpacesState(result, spaces, pos), line[i], tabWidth, trim);
      if line[i] != '\t' {
        if line[i] == ' ' {
          spaces := spaces + " ";
        } else {
          if !trim || !IsBreak(line[i]) {
            if |spaces| > 0 {
              result := result + spaces;
              pos := pos + |spaces|;
            }
          }
          spaces := "";
          result := result + [line[i]];
          pos := pos + 1;
        }
      } else {
        var t := tabWidth - (pos + |spaces|) % tabWidth;
        spaces := spaces + Repeat(' ', t);
      }
    }
    assert line[..|line|] == line;
    SpacesShape(line, tabWidth, trim);
    SpacesKeepVisible(line, tabWidth, trim);
    SpacesKeepColumns(line, tabWidth, trim);
  }

  // ---------------------------------------------------------------------------
  // Invariants of the scan.

  lemma RunSnoc(s: string, c: char, w: int, trim: bool)
    requires w > 0
    ensures SpacesRun(s + [c], w, trim) == SpacesStep(SpacesRun(s, w, trim), c, w, trim)
  {
    SnocInit(s, c);
  }

  /** `pos` is always the length of the output, the pending run holds only spaces, and no tab is ever output. */
  lemma {:induction false} SpacesShape(s: string, w: int, trim: bool)
    requires w > 0
    ensures SpacesRun(s, w, trim).pos == |SpacesRun(s, w, trim).result|
    ensures AllAre(SpacesRun(s, w, trim).spaces, ' ')
    ensures NoTabs(SpacesRun(s, w, trim).result)
  {
    if s != [] {
      SpacesShape(s[..|s| - 1], w, trim);
    }
  }

  /** Every character other than a space or a tab is output, in order; line breaks included. */
  lemma {:induction false} SpacesKeepVisible(s: string, w: int, trim: bool)
    requires w > 0
    ensures Visible(SpacesRun(s, w, trim).result) == Visible(s)
  {
    if s != [] {
      var init, c := s[..|s| - 1], s[|s| - 1];
      assert s == init + [c];
      SpacesKeepVisible(init, w, trim);
      var st := SpacesRun(init, w, trim);
      SpacesShape(init, w, trim);
      ColumnAfterSnoc(init, c, w);
      if !IsBlank(c) {
        if !trim || !IsBreak(c) {
          AppendBlanks(st.result, st.spaces, w);
          ColumnAfterSnoc(st.result + st.spaces, c, w);
        } else {
          ColumnAfterSnoc(st.result, c, w);
        }
      }
    }
  }

  /**
   * Column preservation: as long as no break has been trimmed, every visible
   * character is output at the display column it had in the input, and the
   * output plus the pending run reach the input's column.
   */
  lemma {:induction false} SpacesKeepColumns(s: string, w: int, trim: bool)
    requires w > 0
    ensures !trim || NoBreaks(s) ==>
      Marks(SpacesRun(s, w, trim).result, w) == Marks(s, w) &&
      |SpacesRun(s, w, trim).result| + |SpacesRun(s, w, trim).spaces| == ColumnAfter(s, w)
  {
    if s != [] && (!trim || NoBreaks(s)) {
      var init, c := s[..|s| - 1], s[|s| - 1];
      assert s == init + [c];
      assert NoBreaks(s) ==> NoBreaks(init) && !IsBreak(c);
      SpacesKeepColumns(init, w, trim);
      KeepColumnsStep(init, c, w, trim);
    }
  }

  /** One step of `SpacesKeepColumns`. */
  lemma KeepColumnsStep(init: string, c: char, w: int, trim: bool)
    requires w > 0 && (!trim || !IsBreak(c))
    requires Marks(SpacesRun(init, w, trim).result, w) == Marks(init, w)
    requires |SpacesRun(init, w, trim).result| + |SpacesRun(init, w, trim).spaces| == ColumnAfter(init, w)
    ensures Marks(SpacesRun(init + [c], w, trim).result, w) == Marks(init + [c], w)
    ensures |SpacesRun(init + [c], w, trim).result| + |SpacesRun(init + [c], w, trim).spaces|
         == ColumnAfter(init + [c], w)
  {
    var st := SpacesRun(init, w, trim);
    SpacesShape(init, w, trim);
    RunSnoc(init, c, w, trim);
    ColumnAfterSnoc(init, c, w);
    var st' := SpacesStep(st, c, w, trim);
    if c == ' ' {
      assert st' == SpacesState(st.result, st.spaces + " ", st.pos);
    } else if c == '\t' {
      var t := w - (st.pos + |st.spaces|) % w;
      assert st' == SpacesState(st.result, st.spaces + Repeat(' ', t), st.pos);
      assert ColumnAfter(init + [c], w) == ColumnAfter(init, w) + t;
    } else {
      VisibleStepColumns(st.result, st.spaces, c, w);
      assert st' == SpacesState(st.result + st.spaces + [c], "", st.pos + |st.spaces| + 1);
    }
  }

  /** Flushing the pending spaces and a visible character onto tab-free output. */
  lemma VisibleStepColumns(r: string, sp: string, c: char, w: int)
    requires w > 0 && NoTabs(r) && AllAre(sp, ' ') && !IsBlank(c)
    ensures Marks(r + sp + [c], w) == Marks(r, w) + [Mark(|r| + |sp|, c)]
  {
    AppendBlanks(r, sp, w);
    ColumnAfterSnoc(r + sp, c, w);
    assert NoTabs(r + sp);
    ColumnAfterTabFree(r + sp, w);
  }

  /** The output never ends in a blank, and with trimming no blank precedes a break. */
  lemma {:induction false} SpacesOutputShape(s: string, w: int, trim: bool)
    requires w > 0
    ensures !EndsInBlank(SpacesRun(s, w, trim).result)
    ensures trim ==> NoBlankBeforeBreak(SpacesRun(s, w, trim).result)
  {
    if s != [] {
      var init, c := s[..|s| - 1], s[|s| - 1];
      SpacesOutputShape(init, w, trim);
      SpacesShape(init, w, trim);
      var st := SpacesRun(init, w, trim);
      if !IsBlank(c) {
        var r := SpacesRun(s, w, trim).result;
        if trim && IsBreak(c) {
          assert r == st.result + [c];
          forall i | 0 < i < |r| && IsBreak(r[i]) ensures !IsBlank(r[i - 1]) {
            if i < |r| - 1 {
              assert r[i] == st.result[i] && r[i - 1] == st.result[i - 1];
            }
          }
        } else if trim {
          assert r == st.result + st.spaces + [c];
          forall i | 0 < i < |r| && IsBreak(r[i]) ensures !IsBlank(r[i - 1]) {
            assert i < |st.result|;
            assert r[i] == st.result[i] && r[i - 1] == st.result[i - 1];
          }
        }
      }
    }
  }

  /** The output only grows as the scan proceeds. */
  lemma {:induction false} SpacesGrow(s: string, t: string, w: int, trim: bool)
    requires w > 0
    ensures SpacesRun(s, w, trim).result <= SpacesRun(s + t, w, trim).result
  {
    if t == [] {
      assert s + t == s;
    } else {
      var t' := t[..|t| - 1];
      assert s + t == (s + t') + [t[|t| - 1]];
      SpacesGrow(s, t', w, trim);
      RunSnoc(s + t', t[|t| - 1], w, trim);
    }
  }

  // ---------------------------------------------------------------------------
  // What `fix_spaces` returns.

  /** With trimming off, every visible character keeps its display column. */
  lemma FixedSpacesKeepsColumns(line: string, w: int)
    requires w > 0
    ensures Marks(FixedSpaces(line, w, false), w) == Marks(line, w)
    ensures NoTabs(FixedSpaces(line, w, false))
  {
    SpacesKeepColumns(line, w, false);
    SpacesShape(line, w, false);
  }

  /** With either trim setting, the visible characters before the first break keep their columns. */
  lemma FixedSpacesKeepsColumnsBeforeBreak(p: string, q: string, w: int, trim: bool)
    requires w > 0 && NoBreaks(p)
    ensures Marks(p, w) <= Marks(FixedSpaces(p + q, w, trim), w)
  {
    SpacesKeepColumns(p, w, trim);
    SpacesGrow(p, q, w, trim);
    var r, r' := SpacesRun(p, w, trim).result, FixedSpaces(p + q, w, trim);
    assert r' == r + r'[|r|..];
    MarksOfPrefix(r, r'[|r|..], w);
  }

  /** Blanks with nothing after them are dropped, whatever the trim setting. */
  lemma {:induction false} FixedSpacesDropsTrailingBlanks(s: string, b: string, w: int, trim: bool)
    requires w > 0 && AllBlank(b)
    ensures FixedSpaces(s + b, w, trim) == FixedSpaces(s, w, trim)
  {
    if b == [] {
      assert s + b == s;
    } else {
      var b' := b[..|b| - 1];
      assert s + b == (s + b') + [b[|b| - 1]];
      FixedSpacesDropsTrailingBlanks(s, b', w, trim);
      RunSnoc(s + b', b[|b| - 1], w, trim);
    }
  }

  /** The pending blanks after a blank run are the run's own. */
  lemma {:induction false} BlankRunResult(s: string, b: string, w: int, trim: bool)
    requires w > 0 && AllBlank(b)
    ensures SpacesRun(s + b, w, trim).result == SpacesRun(s, w, trim).result
    ensures SpacesRun(s + b, w, trim).pos == SpacesRun(s, w, trim).pos
  {
    if b == [] {
      assert s + b == s;
    } else {
      var b' := b[..|b| - 1];
      assert s + b == (s + b') + [b[|b| - 1]];
      BlankRunResult(s, b', w, trim);
      RunSnoc(s + b', b[|b| - 1], w, trim);
    }
  }

  /** With trimming on, the blanks right before a break are dropped: `"x   \n"` becomes `"x\n"`. */
  lemma FixedSpacesTrimsBeforeBreak(s: string, b: string, t: char, w: int)
    requires w > 0 && AllBlank(b) && IsBreak(t)
    ensures FixedSpaces(s + b + [t], w, true) == FixedSpaces(s, w, true) + [t]
  {
    BlankRunResult(s, b, w, true);
    RunSnoc(s + b, t, w, true);
  }

  /**
   * With trimming off, the blanks right before a break are output as the
   * spaces that reach the break's input column.
   */
  lemma FixedSpacesFlushesBeforeBreak(s: string, b: string, t: char, w: int)
    requires w > 0 && AllBlank(b) && IsBreak(t)
    requires s == [] || !IsBlank(s[|s| - 1])
    ensures ColumnAfter(s, w) <= ColumnAfter(s + b, w)
    ensures FixedSpaces(s + b + [t], w, false)
         == FixedSpaces(s, w, false) + Repeat(' ', ColumnAfter(s + b, w) - ColumnAfter(s, w)) + [t]
  {
    ColumnAfterMonotone(s, b, w);
    BlankRunResult(s, b, w, false);
    RunSnoc(s + b, t, w, false);
    SpacesKeepColumns(s, w, false);
    SpacesKeepColumns(s + b, w, false);
    SpacesShape(s + b, w, false);
    PendingEmptyAfterVisible(s, w, false);
    SpacesAreRepeat(SpacesRun(s + b, w, false).spaces);
  }

  /** Nothing is pending right after a visible character. */
  lemma PendingEmptyAfterVisible(s: string, w: int, trim: bool)
    requires w > 0
    requires s == [] || !IsBlank(s[|s| - 1])
    ensures SpacesRun(s, w, trim).spaces == ""
  {
  }

  /** Once nothing is pending, text without blanks is copied verbatim. */
  lemma {:induction false} FixedSpacesCopiesTail(s: string, v: string, w: int, trim: bool)
    requires w > 0 && NoBlanks(v)
    requires s == [] || !IsBlank(s[|s| - 1])
    ensures FixedSpaces(s + v, w, trim) == FixedSpaces(s, w, trim) + v
    ensures SpacesRun(s + v, w, trim).spaces == ""
  {
    if v == [] {
      assert s + v == s;
    } else {
      var v' := v[..|v| - 1];
      assert s + v == (s + v') + [v[|v| - 1]];
      FixedSpacesCopiesTail(s, v', w, trim);
      RunSnoc(s + v', v[|v| - 1], w, trim);
    }
  }

  /**
   * Indentation: a line made of a blank run, a visible character and text
   * without blanks comes out as the spaces reaching the run's display column,
   * then the text.
   */
  lemma FixedSpacesIndent(b: string, c: char, v: string, w: int, trim: bool)
    requires w > 0 && AllBlank(b) && !IsBlank(c) && NoBlanks(v)
    requires !trim || !IsBreak(c)
    ensures FixedSpaces(b + [c] + v, w, trim) == Repeat(' ', ColumnAfter(b, w)) + [c] + v
  {
    BlankRunResult([], b, w, trim);
    assert [] + b == b;
    assert NoBreaks(b);
    SpacesKeepColumns(b, w, trim);
    SpacesShape(b, w, trim);
    SpacesAreRepeat(SpacesRun(b, w, trim).spaces);
    RunSnoc(b, c, w, trim);
    SnocInit(b, c);
    FixedSpacesCopiesTail(b + [c], v, w, trim);
  }

  /** Each leading tab becomes `w` spaces. */
  lemma FixedSpacesLeadingTabs(n: nat, c: char, v: string, w: int, trim: bool)
    requires w > 0 && !IsBlank(c) && NoBlanks(v)
    requires !trim || !IsBreak(c)
    ensures FixedSpaces(Repeat('\t', n) + [c] + v, w, trim) == Repeat(' ', n * w) + [c] + v
  {
    ColumnAfterTabs(n, w);
    FixedSpacesIndent(Repeat('\t', n), c, v, w, trim);
  }

  // ---------------------------------------------------------------------------
  // Fixpoints and idempotence.

  /** On a tab-free text whose trimmed breaks have no blank before them, the scan copies its input. */
  lemma {:induction false} SpacesCopyFixpoint(p: string, w: int, trim: bool)
    requires w > 0 && NoTabs(p)
    requires trim ==> NoBlankBeforeBreak(p)
    ensures SpacesRun(p, w, trim).result + SpacesRun(p, w, trim).spaces == p
  {
    if p != [] {
      var init, c := p[..|p| - 1], p[|p| - 1];
      assert p == init + [c];
      assert trim ==> NoBlankBeforeBreak(init) by {
        if trim {
          forall i | 0 < i < |init| && IsBreak(init[i]) ensures !IsBlank(init[i - 1]) {
            assert init[i] == p[i] && init[i - 1] == p[i - 1];
          }
        }
      }
      SpacesCopyFixpoint(init, w, trim);
      var st := SpacesRun(init, w, trim);
    }
  }

  /**
   * `fix_spaces` leaves a text unchanged exactly when it has no tab, does not
   * end in a blank and, with trimming on, has no blank before a break.
   */
  lemma FixedSpacesFixpoint(x: string, w: int, trim: bool)
    requires w > 0
    ensures FixedSpaces(x, w, trim) == x <==>
      NoTabs(x) && !EndsInBlank(x) && (trim ==> NoBlankBeforeBreak(x))
  {
    if NoTabs(x) && !EndsInBlank(x) && (trim ==> NoBlankBeforeBreak(x)) {
      SpacesCopyFixpoint(x, w, trim);
      SpacesShape(x, w, trim);
    }
    SpacesShape(x, w, trim);
    SpacesOutputShape(x, w, trim);
  }

  /** Fixing twice is fixing once. */
  lemma FixedSpacesIdempotent(x: string, w: int, trim: bool)
    requires w > 0
    ensures FixedSpaces(FixedSpaces(x, w, trim), w, trim) == FixedSpaces(x, w, trim)
  {
    SpacesShape(x, w, trim);
    SpacesOutputShape(x, w, trim);
    FixedSpacesFixpoint(FixedSpaces(x, w, trim), w, trim);
  }

  /** A line that ends in a visible character, such as `"\n"`, still ends in it. */
  lemma FixedSpacesKeepsLastVisible(s: string, c: char, w: int, trim: bool)
    requires w > 0 && !IsBlank(c)
    ensures var r := FixedSpaces(s + [c], w, trim); |r| > 0 && r[|r| - 1] == c
  {
    RunSnoc(s, c, w, trim);
    var st := SpacesRun(s, w, trim);
    if !trim || !IsBreak(c) {
      assert FixedSpaces(s + [c], w, trim) == (st.result + st.spaces) + [c];
    } else {
      assert FixedSpaces(s + [c], w, trim) == st.result + [c];
    }
  }
}
