/**
 * Splitting a text into lines and joining the fixed lines back together, as
 * `fix_indents_in_file` does around the two fixers: the line break is the
 * first of `"\r\n"`, `"\n"`, `"\r"` that occurs in the text, every piece gets
 * a `"\n"` appended so that the last line also ends in a break, and the output
 * is the pieces joined with the chosen break, plus one more break when the
 * text ended with one.
 */
module LineSplit {
  import opened Wrappers

  /** `sep` occurs in `s` starting at index `k`. */
  predicate OccursAt(s: string, sep: string, k: nat)
  {
    k + |sep| <= |s| && s[k..k + |sep|] == sep
  }

  lemma OccursAtTail(s: string, sep: string, j: nat)
    requires |s| > 0
    ensures OccursAt(s[1..], sep, j) <==> OccursAt(s, sep, j + 1)
  {
    if j + |sep| <= |s[1..]| {
      assert s[1..][j..j + |sep|] == s[j + 1..j + 1 + |sep|];
    }
  }

  /** The index of the first occurrence of `sep` in `s` (Python's `s.find(sep)`), if any. */
  function IndexOf(s: string, sep: string): (r: Option<nat>)
    ensures r.Some? ==> OccursAt(s, sep, r.value)
    ensures r.Some? ==> forall j :: 0 <= j < r.value ==> !OccursAt(s, sep, j)
    ensures r.None? ==> forall j: nat :: !OccursAt(s, sep, j)
    decreases |s|
  {
    if |s| < |sep| then None
    else if s[..|sep|] == sep || |s| == 0 then
      assert s[0..|sep|] == s[..|sep|];
      Some(0)
    else
      assert !OccursAt(s, sep, 0) by { assert s[0..|sep|] == s[..|sep|]; }
      var r := IndexOf(s[1..], sep);
      assert forall j: nat :: OccursAt(s[1..], sep, j) <==> OccursAt(s, sep, j + 1) by {
        forall j: nat ensures OccursAt(s[1..], sep, j) <==> OccursAt(s, sep, j + 1) {
          OccursAtTail(s, sep, j);
        }
      }
      match r
      case None =>
        assert forall j: nat :: !OccursAt(s, sep, j) by {
          forall j: nat ensures !OccursAt(s, sep, j) {
            if j > 0 { assert !OccursAt(s[1..], sep, j - 1); }
          }
        }
        None
      case Some(k) =>
        assert forall j :: 1 <= j < k + 1 ==> !OccursAt(s, sep, j) by {
          forall j | 1 <= j < k + 1 ensures !OccursAt(s, sep, j) {
            assert !OccursAt(s[1..], sep, j - 1);
          }
        }
        Some(k + 1)
  }

  /** Python's `sep in s`. */
  predicate Contains(s: string, sep: string)
  {
    IndexOf(s, sep).Some?
  }

  /** `sep in s` holds exactly when `sep` occurs somewhere in `s`. */
  lemma ContainsMeansOccurs(s: string, sep: string)
    ensures Contains(s, sep) <==> exists k: nat :: OccursAt(s, sep, k)
  {
  }

  /** Python's `sep.join(pieces)`. */
  function Join(pieces: seq<string>, sep: string): string
  {
    if |pieces| == 0 then ""
    else if |pieces| == 1 then pieces[0]
    else pieces[0] + sep + Join(pieces[1..], sep)
  }

  /** Python's `s.split(sep)`: cut at each leftmost occurrence, scanning left to right. */
  function Split(s: string, sep: string): (r: seq<string>)
    requires |sep| > 0
    ensures |r| >= 1
    decreases |s|
  {
    match IndexOf(s, sep)
    case None => [s]
    case Some(k) => [s[..k]] + Split(s[k + |sep|..], sep)
  }

  /** A piece cut before the first occurrence contains no occurrence. */
  lemma FirstPieceFree(s: string, sep: string, k: nat)
    requires |sep| > 0 && k <= |s| && forall j :: 0 <= j < k ==> !OccursAt(s, sep, j)
    ensures !Contains(s[..k], sep)
  {
    if Contains(s[..k], sep) {
      var j := IndexOf(s[..k], sep).value;
      assert s[..k][j..j + |sep|] == s[j..j + |sep|];
      assert OccursAt(s, sep, j);
    }
  }

  /** The split of a text with an occurrence at its first index `k`. */
  lemma SplitUnfold(s: string, sep: string, k: nat)
    requires |sep| > 0 && IndexOf(s, sep) == Some(k)
    ensures Split(s, sep) == [s[..k]] + Split(s[k + |sep|..], sep)
    ensures s == s[..k] + sep + s[k + |sep|..]
  {
    var rest := s[k + |sep|..];
    assert s[k..k + |sep|] == sep;
    assert s == s[..k] + s[k..k + |sep|] + rest;
  }

  /** Joining the pieces of a split gives back the text. */
  lemma {:induction false} SplitJoin(s: string, sep: string)
    requires |sep| > 0
    ensures Join(Split(s, sep), sep) == s
    decreases |s|
  {
    match IndexOf(s, sep)
    case None =>
    case Some(k) =>
      var rest := s[k + |sep|..];
      SplitUnfold(s, sep, k);
      SplitJoin(rest, sep);
      var r := Split(s, sep);
      assert r[1..] == Split(rest, sep);
  }

  /** No piece of a split contains the separator. */
  lemma {:induction false} SplitPiecesFree(s: string, sep: string)
    requires |sep| > 0
    ensures forall i :: 0 <= i < |Split(s, sep)| ==> !Contains(Split(s, sep)[i], sep)
    decreases |s|
  {
    match IndexOf(s, sep)
    case None =>
    case Some(k) =>
      var rest := s[k + |sep|..];
      SplitUnfold(s, sep, k);
      SplitPiecesFree(rest, sep);
      FirstPieceFree(s, sep, k);
      var r := Split(s, sep);
      forall i | 0 <= i < |r| ensures !Contains(r[i], sep) {
        if i > 0 { assert r[i] == Split(rest, sep)[i - 1]; }
      }
  }

  /** A text without the separator is one piece. */
  lemma SplitAbsent(s: string, sep: string)
    requires |sep| > 0 && !Contains(s, sep)
    ensures Split(s, sep) == [s]
  {
  }

  // ---------------------------------------------------------------------------
  // The line split of `fix_indents_in_file`.

  /** The candidate line breaks, in the order they are tried. */
  const LineBreaks: seq<string> := ["\r\n", "\n", "\r"]

  /** The first of `cands` that occurs in `text`. */
  function FirstContained(cands: seq<string>, text: string): (r: Option<string>)
    ensures r.Some? ==> r.value in cands && Contains(text, r.value)
    ensures r.None? ==> forall b :: b in cands ==> !Contains(text, b)
  {
    if cands == [] then None
    else if Contains(text, cands[0]) then Some(cands[0])
    else FirstContained(cands[1..], text)
  }

  /** The line break the text is read with: the first candidate it contains, `"\n"` when none. */
  function LineBreakOf(text: string): string
  {
    match FirstContained(LineBreaks, text)
    case None => "\n"
    case Some(b) => b
  }

  /** Each piece with a `"\n"` appended: `[l + '\n' for l in pieces]`. */
  function WithNewline(pieces: seq<string>): (r: seq<string>)
    ensures |r| == |pieces|
    ensures forall i :: 0 <= i < |r| ==> r[i] == pieces[i] + "\n"
  {
    if pieces == [] then [] else [pieces[0] + "\n"] + WithNewline(pieces[1..])
  }

  /** The lines the fixers are applied to. */
  function Lines(text: string): seq<string>
  {
    match FirstContained(LineBreaks, text)
    case None => [text + "\n"]
    case Some(b) => WithNewline(Split(text, b))
  }

  /** Python's `text[-n:]` for `n >= 1`: the last `n` characters, or all of a shorter text. */
  function LastChars(text: string, n: nat): (r: string)
    requires n >= 1
    ensures |r| == if n <= |text| then n else |text|
    ensures r == text[|text| - |r|..]
  {
    if n <= |text| then text[|text| - n..] else text
  }

  predicate EndsWith(s: string, suffix: string)
  {
    |suffix| <= |s| && s[|s| - |suffix|..] == suffix
  }

  /** The priority among the candidate breaks: `"\r\n"` wins over `"\n"`, which wins over `"\r"`. */
  lemma LineBreakPriority(text: string)
    ensures LineBreakOf(text) ==
      if Contains(text, "\r\n") then "\r\n"
      else if Contains(text, "\n") then "\n"
      else if Contains(text, "\r") then "\r"
      else "\n"
    ensures Contains(text, LineBreakOf(text)) <==> FirstContained(LineBreaks, text).Some?
  {
    var c1, c2: seq<string> := ["\n", "\r"], ["\r"];
    assert LineBreaks[1..] == c1 && c1[1..] == c2 && c2[1..] == [];
    assert FirstContained(c2, text) == if Contains(text, "\r") then Some("\r") else None;
    assert FirstContained(c1, text) == if Contains(text, "\n") then Some("\n") else FirstContained(c2, text);
  }

  /** The line split, written as the loop over the candidate breaks that the reader runs. */
  method SplitText(text: string) returns (lineBreak: string, lines: seq<string>, noLastLineBreak: bool)
    ensures lineBreak == LineBreakOf(text)
    ensures lines == Lines(text)
    ensures noLastLineBreak == !EndsWith(text, lineBreak)
  {
    LineBreakPriority(text);
    var found: Option<seq<string>> := None;
    lineBreak := "\n";
    for k := 0 to |LineBreaks|
      invariant found == None
      invariant forall j :: 0 <= j < k ==> !Contains(text, LineBreaks[j])
    {
      if Contains(text, LineBreaks[k]) {
        lineBreak := LineBreaks[k];
        assert lineBreak == LineBreakOf(text) by {
          assert k == 0 || !Contains(text, "\r\n");
          assert k <= 1 || !Contains(text, "\n");
        }
        found := Some(WithNewline(Split(text, lineBreak)));
        break;
      }
    }
    if found == None {
      assert !Contains(text, "\r\n") && !Contains(text, "\n") && !Contains(text, "\r") by {
        assert LineBreaks[0] == "\r\n" && LineBreaks[1] == "\n" && LineBreaks[2] == "\r";
      }
      lineBreak := "\n";
      lines := [text + "\n"];
    } else {
      lines := found.value;
    }
    noLastLineBreak := LastChars(text, |lineBreak|) != lineBreak;
  }

  /** Every line ends in `"\n"`. */
  lemma LinesEndInNewline(text: string)
    ensures |Lines(text)| >= 1
    ensures forall i :: 0 <= i < |Lines(text)| ==> EndsWith(Lines(text)[i], "\n")
  {
    if FirstContained(LineBreaks, text).Some? {
      var pieces := Split(text, LineBreakOf(text));
      forall i | 0 <= i < |pieces| ensures EndsWith(pieces[i] + "\n", "\n") {
        assert (pieces[i] + "\n")[|pieces[i]|..] == "\n";
      }
    } else {
      assert (text + "\n")[|text|..] == "\n";
    }
  }

  /** Dropping the appended `"\n"` from every line gives the pieces between the breaks. */
  lemma LinesPieces(text: string)
    ensures DropLasts(Lines(text)) == Split(text, LineBreakOf(text))
  {
    var lb := LineBreakOf(text);
    if FirstContained(LineBreaks, text) == None {
      LineBreakPriority(text);
      SplitAbsent(text, lb);
      assert DropLast(text + "\n") == text;
    } else {
      var pieces := Split(text, lb);
      var lines := WithNewline(pieces);
      assert Lines(text) == lines;
      forall i | 0 <= i < |pieces| ensures DropLasts(lines)[i] == pieces[i] {
        assert lines[i] == pieces[i] + "\n";
        assert DropLast(pieces[i] + "\n") == pieces[i];
      }
    }
  }

  /** Line `i` is piece `i` of the split with a `"\n"` appended. */
  lemma LinesArePieces(text: string)
    ensures |Lines(text)| == |Split(text, LineBreakOf(text))|
    ensures forall i :: 0 <= i < |Lines(text)| ==> Lines(text)[i] == Split(text, LineBreakOf(text))[i] + "\n"
  {
    LinesEndInNewline(text);
    LinesPieces(text);
    var lines, pieces := Lines(text), Split(text, LineBreakOf(text));
    forall i | 0 <= i < |lines| ensures lines[i] == pieces[i] + "\n" {
      assert DropLast(lines[i]) == pieces[i];
      assert lines[i][|lines[i]| - 1] == '\n' by { assert EndsWith(lines[i], "\n"); }
    }
  }

  // ---------------------------------------------------------------------------
  // Joining the fixed lines.

  /** Python's `l[:-1]`. */
  function DropLast(l: string): (r: string)
    ensures |l| > 0 ==> l == r + [l[|l| - 1]]
    ensures |l| == 0 ==> r == []
  {
    if |l| == 0 then l else l[..|l| - 1]
  }

  function DropLasts(ls: seq<string>): (r: seq<string>)
    ensures |r| == |ls|
    ensures forall i :: 0 <= i < |r| ==> r[i] == DropLast(ls[i])
  {
    if ls == [] then [] else [DropLast(ls[0])] + DropLasts(ls[1..])
  }

  /** The output text: the lines without their last character, joined with `lineBreak`,
      plus one more `lineBreak` unless the input had none at its end. */
  function Rejoin(fixed: seq<string>, lineBreak: string, noLastLineBreak: bool): string
  {
    Join(DropLasts(fixed), lineBreak) + (if noLastLineBreak then "" else lineBreak)
  }

  /** Splitting and rejoining without fixing gives the text back, except that a text
      ending in its line break gets a second one: the pieces after the last break
      include an empty one, and the break is appended once more on top. */
  lemma SplitRejoin(text: string)
    ensures var lb := LineBreakOf(text);
      Rejoin(Lines(text), lb, !EndsWith(text, lb)) == text + (if EndsWith(text, lb) then lb else "")
  {
    LinesPieces(text);
    SplitJoin(text, LineBreakOf(text));
  }

  /** Python's `text[-n:] != lb` is the negation of `text.endswith(lb)`. */
  lemma LastCharsEndsWith(text: string, lb: string)
    requires |lb| >= 1
    ensures (LastChars(text, |lb|) != lb) <==> !EndsWith(text, lb)
  {
  }
}
