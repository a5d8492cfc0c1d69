/**
 * The column model shared by `fix_spaces` and `fix_tabs`: character classes,
 * display columns (a tab advances to the next multiple of the tab width, any
 * other character by one), and the list of visible characters with the column
 * each one is displayed at.
 */
module Columns {

  /** The characters that the two fixers rewrite or drop. */
  predicate IsBlank(c: char) { c == ' ' || c == '\t' }

  /** The characters that end a line: the trimming rule looks for these. */
  predicate IsBreak(c: char) { c == '\r' || c == '\n' }

  /** `n` copies of `c`: Python's `c * n`. */
  function Repeat(c: char, n: nat): (r: string)
    ensures |r| == n
    ensures forall i :: 0 <= i < n ==> r[i] == c
  {
    if n == 0 then [] else Repeat(c, n - 1) + [c]
  }

  predicate AllAre(s: string, c: char) { forall i :: 0 <= i < |s| ==> s[i] == c }
  predicate NoTabs(s: string) { forall i :: 0 <= i < |s| ==> s[i] != '\t' }
  predicate AllBlank(s: string) { forall i :: 0 <= i < |s| ==> IsBlank(s[i]) }
  predicate NoBlanks(s: string) { forall i :: 0 <= i < |s| ==> !IsBlank(s[i]) }
  predicate NoBreaks(s: string) { forall i :: 0 <= i < |s| ==> !IsBreak(s[i]) }
  predicate EndsInBlank(s: string) { |s| > 0 && IsBlank(s[|s| - 1]) }

  /** No space or tab stands right before a `\r` or `\n`: what trimming achieves. */
  predicate NoBlankBeforeBreak(s: string)
  {
    forall i :: 0 < i < |s| && IsBreak(s[i]) ==> !IsBlank(s[i - 1])
  }

  /** The first tab stop strictly after `col`: `col + (w - col % w)`. */
  function NextStop(col: nat, w: int): nat
    requires w > 0
  {
    col + (w - col % w)
  }

  /** The column after displaying `c` at column `col`. */
  function Advance(col: nat, c: char, w: int): nat
    requires w > 0
  {
    if c == '\t' then NextStop(col, w) else col + 1
  }

  /** The display column reached after `s`, starting from column 0. */
  function ColumnAfter(s: string, w: int): nat
    requires w > 0
  {
    if s == [] then 0 else Advance(ColumnAfter(s[..|s| - 1], w), s[|s| - 1], w)
  }

  /** A visible character together with the display column it starts at. */
  datatype Mark = Mark(column: nat, ch: char)

  /** Every character of `s` other than a space or a tab, with its display column, in order. */
  function Marks(s: string, w: int): seq<Mark>
    requires w > 0
  {
    if s == [] then []
    else
      var init, c := s[..|s| - 1], s[|s| - 1];
      Marks(init, w) + (if IsBlank(c) then [] else [Mark(ColumnAfter(init, w), c)])
  }

  /** Every character of `s` other than a space or a tab, in order. */
  function Visible(s: string): string
  {
    if s == [] then []
    else
      var init, c := s[..|s| - 1], s[|s| - 1];
      Visible(init) + (if IsBlank(c) then [] else [c])
  }

  /** The characters of a list of marks. */
  function Chars(ms: seq<Mark>): string
  {
    if ms == [] then [] else Chars(ms[..|ms| - 1]) + [ms[|ms| - 1].ch]
  }

  // ---------------------------------------------------------------------------
  // Facts about appending to a string, used by the loop proofs of both fixers.

  lemma SnocInit(s: string, c: char)
    ensures (s + [c])[..|s|] == s
    ensures (s + [c])[|s|] == c
  {
  }

  lemma ColumnAfterSnoc(s: string, c: char, w: int)
    requires w > 0
    ensures ColumnAfter(s + [c], w) == Advance(ColumnAfter(s, w), c, w)
    ensures Marks(s + [c], w) == Marks(s, w) + (if IsBlank(c) then [] else [Mark(ColumnAfter(s, w), c)])
    ensures Visible(s + [c]) == Visible(s) + (if IsBlank(c) then [] else [c])
  {
    SnocInit(s, c);
  }

  /** Appending spaces and tabs changes neither the marks nor the visible characters. */
  lemma {:induction false} AppendBlanks(s: string, b: string, w: int)
    requires w > 0 && AllBlank(b)
    ensures Marks(s + b, w) == Marks(s, w)
    ensures Visible(s + b) == Visible(s)
  {
    if b != [] {
      var b' := b[..|b| - 1];
      assert s + b == (s + b') + [b[|b| - 1]];
      AppendBlanks(s, b', w);
      ColumnAfterSnoc(s + b', b[|b| - 1], w);
    } else {
      assert s + b == s;
    }
  }

  /** Each appended space advances the column by one. */
  lemma {:induction false} ColumnAfterSpaces(s: string, n: nat, w: int)
    requires w > 0
    ensures ColumnAfter(s + Repeat(' ', n), w) == ColumnAfter(s, w) + n
  {
    if n > 0 {
      assert s + Repeat(' ', n) == (s + Repeat(' ', n - 1)) + [' '];
      ColumnAfterSpaces(s, n - 1, w);
      ColumnAfterSnoc(s + Repeat(' ', n - 1), ' ', w);
    } else {
      assert s + Repeat(' ', n) == s;
    }
  }

  /** A run of `n` tabs from column 0 reaches column `n * w`. */
  lemma {:induction false} ColumnAfterTabs(n: nat, w: int)
    requires w > 0
    ensures ColumnAfter(Repeat('\t', n), w) == n * w
  {
    if n > 0 {
      ColumnAfterTabs(n - 1, w);
      ColumnAfterOneMoreTab(n, w);
    }
  }

  lemma ColumnAfterOneMoreTab(n: nat, w: int)
    requires w > 0 && n > 0
    requires ColumnAfter(Repeat('\t', n - 1), w) == (n - 1) * w
    ensures ColumnAfter(Repeat('\t', n), w) == n * w
  {
    var m: nat := (n - 1) * w;
    var t := Repeat('\t', n - 1);
    assert Repeat('\t', n) == t + ['\t'];
    SnocInit(t, '\t');
    assert ColumnAfter(t + ['\t'], w) == NextStop(m, w);
    ModUnique(m, n - 1, 0, w);
    assert NextStop(m, w) == m + w;
    MulSucc(n, w);
  }

  lemma MulSucc(n: int, w: int)
    ensures (n - 1) * w + w == n * w
  {
  }

  /** Each of `m` tabs appended after `s` moves to the next stop, so the run ends on the `m`-th stop after it. */
  lemma {:induction false} ColumnAfterTabsFrom(s: string, m: nat, w: int)
    requires w > 0
    ensures m == 0 ==> ColumnAfter(s + Repeat('\t', m), w) == ColumnAfter(s, w)
    ensures m > 0 ==> ColumnAfter(s + Repeat('\t', m), w) % w == 0
    ensures m > 0 ==> ColumnAfter(s + Repeat('\t', m), w) / w == ColumnAfter(s, w) / w + m
  {
    if m == 0 {
      assert s + Repeat('\t', m) == s;
    } else {
      var t := s + Repeat('\t', m - 1);
      assert s + Repeat('\t', m) == t + ['\t'];
      ColumnAfterTabsFrom(s, m - 1, w);
      ColumnAfterSnoc(t, '\t', w);
      NextStopIsStop(ColumnAfter(t, w), w);
    }
  }

  /** A line break is visible, so a string has none exactly when its visible characters have none. */
  lemma {:induction false} BreaksAreVisible(s: string)
    ensures NoBreaks(s) <==> NoBreaks(Visible(s))
  {
    if s != [] {
      var init, c := s[..|s| - 1], s[|s| - 1];
      BreaksAreVisible(init);
      assert s == init + [c];
      assert NoBreaks(s) <==> NoBreaks(init) && !IsBreak(c);
      if IsBlank(c) {
        assert Visible(s) == Visible(init) + [];
        assert Visible(init) + [] == Visible(init);
      } else {
        var v := Visible(init);
        assert Visible(s) == v + [c];
        assert (v + [c])[|v|] == c;
        assert forall i :: 0 <= i < |v| ==> (v + [c])[i] == v[i];
      }
    }
  }

  /** A string of spaces only is `Repeat(' ', its length)`. */
  lemma SpacesAreRepeat(s: string)
    requires AllAre(s, ' ')
    ensures s == Repeat(' ', |s|)
  {
  }

  /** Without tabs, the display column is the length. */
  lemma {:induction false} ColumnAfterTabFree(s: string, w: int)
    requires w > 0 && NoTabs(s)
    ensures ColumnAfter(s, w) == |s|
  {
    if s != [] {
      ColumnAfterTabFree(s[..|s| - 1], w);
    }
  }

  /** The display column never decreases as characters are appended. */
  lemma {:induction false} ColumnAfterMonotone(s: string, t: string, w: int)
    requires w > 0
    ensures ColumnAfter(s, w) <= ColumnAfter(s + t, w)
  {
    if t != [] {
      var t' := t[..|t| - 1];
      assert s + t == (s + t') + [t[|t| - 1]];
      ColumnAfterMonotone(s, t', w);
      ColumnAfterSnoc(s + t', t[|t| - 1], w);
    } else {
      assert s + t == s;
    }
  }

  /** The marks of a prefix are a prefix of the marks. */
  lemma {:induction false} MarksOfPrefix(s: string, t: string, w: int)
    requires w > 0
    ensures Marks(s, w) <= Marks(s + t, w)
    ensures Visible(s) <= Visible(s + t)
  {
    if t != [] {
      var t' := t[..|t| - 1];
      assert s + t == (s + t') + [t[|t| - 1]];
      MarksOfPrefix(s, t', w);
      ColumnAfterSnoc(s + t', t[|t| - 1], w);
    } else {
      assert s + t == s;
    }
  }

  /** Appending a character appends it to the visible characters unless it is blank. */
  lemma VisibleSnoc(s: string, c: char)
    ensures Visible(s + [c]) == Visible(s) + (if IsBlank(c) then [] else [c])
  {
    SnocInit(s, c);
  }

  /** The visible characters of a concatenation. */
  lemma {:induction false} VisibleConcat(s: string, t: string)
    ensures Visible(s + t) == Visible(s) + Visible(t)
  {
    if t != [] {
      var t', c := t[..|t| - 1], t[|t| - 1];
      assert s + t == (s + t') + [c];
      assert t == t' + [c];
      VisibleConcat(s, t');
      SnocInit(s + t', c);
      SnocInit(t', c);
    } else {
      assert s + t == s;
    }
  }

  /** The characters of the marks are the visible characters. */
  lemma {:induction false} MarksChars(s: string, w: int)
    requires w > 0
    ensures Chars(Marks(s, w)) == Visible(s)
  {
    if s != [] {
      var init, c := s[..|s| - 1], s[|s| - 1];
      MarksChars(init, w);
      if !IsBlank(c) {
        var ms := Marks(init, w) + [Mark(ColumnAfter(init, w), c)];
        assert ms[..|ms| - 1] == Marks(init, w);
        assert Chars(ms) == Chars(Marks(init, w)) + [c];
      } else {
        assert Marks(s, w) == Marks(init, w);
      }
    }
  }

  /** After a string, the character at index `i` starts at the column reached by `s[..i]`. */
  lemma {:induction false} ColumnsIncrease(s: string, w: int)
    requires w > 0
    ensures forall i, j :: 0 <= i < j < |Marks(s, w)| ==> Marks(s, w)[i].column < Marks(s, w)[j].column
    ensures forall i :: 0 <= i < |Marks(s, w)| ==> Marks(s, w)[i].column < ColumnAfter(s, w)
  {
    if s != [] {
      var init, c := s[..|s| - 1], s[|s| - 1];
      ColumnsIncrease(init, w);
      assert ColumnAfter(init, w) < ColumnAfter(s, w);
    }
  }

  // ---------------------------------------------------------------------------
  // Modular arithmetic on tab stops.

  /** Adding less than the distance to the next stop adds to the remainder. */
  lemma ModAddSmall(a: nat, k: nat, w: int)
    requires w > 0 && a % w + k < w
    ensures (a + k) % w == a % w + k
  {
    var q := a / w;
    assert a == q * w + a % w;
    assert a + k == q * w + (a % w + k);
    ModUnique(a + k, q, a % w + k, w);
  }

  lemma ModUnique(a: nat, q: int, r: int, w: int)
    requires w > 0 && 0 <= r < w && a == q * w + r
    ensures a % w == r && a / w == q
  {
    var q', r' := a / w, a % w;
    assert a == q' * w + r';
    assert (q - q') * w == r' - r;
    if q > q' {
      MulAtLeast(q - q', w);
    } else if q < q' {
      MulAtLeast(q' - q, w);
    }
  }

  lemma MulAtLeast(x: int, w: int)
    requires x >= 1 && w > 0
    ensures x * w >= w
  {
    var y := x - 1;
    assert x * w == y * w + w;
    assert y * w >= 0;
  }

  /** A run of `k` columns from `pos` reaches a tab stop exactly when it fills the gap to the next one. */
  lemma StopReached(pos: nat, k: nat, w: int)
    requires w > 0 && 1 <= k && pos % w + k <= w
    ensures (pos + k) % w == 0 <==> pos % w + k == w
    ensures pos % w + k == w ==> NextStop(pos, w) == pos + k
  {
    if pos % w + k < w {
      ModAddSmall(pos, k, w);
    } else {
      ModUnique(pos + k, pos / w + 1, 0, w);
    }
  }

  /** From inside a gap, the next stop is the same as from the gap's start. */
  lemma NextStopWithinGap(pos: nat, k: nat, w: int)
    requires w > 0 && pos % w + k < w
    ensures NextStop(pos + k, w) == NextStop(pos, w)
  {
    ModAddSmall(pos, k, w);
  }

  /** A tab stop is a multiple of the tab width. */
  lemma NextStopIsStop(pos: nat, w: int)
    requires w > 0
    ensures NextStop(pos, w) % w == 0
    ensures NextStop(pos, w) / w == pos / w + 1
  {
    ModUnique(NextStop(pos, w), pos / w + 1, 0, w);
  }
}
