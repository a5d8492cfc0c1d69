/**
 * How `fix_indents_in_file` settles each setting: a command-line argument wins,
 * then the matching `.editorconfig` property, then a default (for the indent
 * style, a majority vote over the first characters of the lines).
 *
 * The `.editorconfig` properties are a `map<string, string>`, as returned by
 * `get_properties`; a command-line argument is an `Option`, `None` standing
 * for Python's `None`.
 */
module Options {
  import opened Wrappers

  // ---------------------------------------------------------------------------
  // Python's `int(s)` on a string, base 10.

  /** The characters `int()` strips around the number (the ASCII ones that `str.isspace` accepts). */
  predicate IsSpace(c: char)
  {
    // space, tab, \n, vertical tab, form feed, \r, and the separators 0x1c to 0x1f
    c == ' ' || 9 <= c as int <= 13 || 28 <= c as int <= 31
  }

  predicate IsDigit(c: char) { '0' <= c <= '9' }

  function StripLeft(s: string): (r: string)
    ensures |r| <= |s| && r == s[|s| - |r|..]
    ensures r == [] || !IsSpace(r[0])
  {
    if |s| > 0 && IsSpace(s[0]) then StripLeft(s[1..]) else s
  }

  function StripRight(s: string): (r: string)
    ensures |r| <= |s| && r == s[..|r|]
    ensures r == [] || !IsSpace(r[|r| - 1])
  {
    if |s| > 0 && IsSpace(s[|s| - 1]) then StripRight(s[..|s| - 1]) else s
  }

  /** Python's `s.strip()` over `IsSpace`. */
  function Strip(s: string): string
  {
    StripRight(StripLeft(s))
  }

  /** Digits with single underscores between them, as `int()` accepts them. */
  predicate DigitsWithUnderscores(d: string)
  {
    && |d| > 0
    && IsDigit(d[0])
    && IsDigit(d[|d| - 1])
    && (forall i :: 0 <= i < |d| ==> IsDigit(d[i]) || d[i] == '_')
    && (forall i, j :: 0 <= i < |d| && 0 <= j < |d| && j == i + 1 ==> d[i] != '_' || d[j] != '_')
  }

  function DigitValue(c: char): nat
    requires IsDigit(c)
  {
    (c as int - '0' as int) as nat
  }

  /** The number the digits of `d` spell in base 10, underscores skipped. */
  function DigitsValue(d: string): nat
    requires forall i :: 0 <= i < |d| ==> IsDigit(d[i]) || d[i] == '_'
  {
    if d == [] then 0
    else if d[|d| - 1] == '_' then DigitsValue(d[..|d| - 1])
    else DigitsValue(d[..|d| - 1]) * 10 + DigitValue(d[|d| - 1])
  }

  /** An unsigned number: `None` unless `d` is digits with single underscores between them. */
  function ParseUnsigned(d: string): (r: Option<nat>)
    ensures r.Some? <==> DigitsWithUnderscores(d)
  {
    if DigitsWithUnderscores(d) then Some(DigitsValue(d)) else None
  }

  /** A number with an optional leading `+` or `-`. */
  function ParseSigned(t: string): Option<int>
  {
    if |t| > 0 && t[0] == '-' then
      match ParseUnsigned(t[1..])
      case None => None
      case Some(v) => Some(-(v as int))
    else if |t| > 0 && t[0] == '+' then
      match ParseUnsigned(t[1..])
      case None => None
      case Some(v) => Some(v as int)
    else
      match ParseUnsigned(t)
      case None => None
      case Some(v) => Some(v as int)
  }

  /** `int(s)`, or `None` where it raises `ValueError`. */
  function ParseInt(s: string): Option<int>
  {
    ParseSigned(Strip(s))
  }

  /** Python's `str(n)` on a natural number. */
  function ShowNat(n: nat): (r: string)
    ensures |r| > 0 && forall i :: 0 <= i < |r| ==> IsDigit(r[i])
  {
    if n < 10 then ['0' + n as char] else ShowNat(n / 10) + ['0' + (n % 10) as char]
  }

  /** Python's `str(n)`. */
  function ShowInt(n: int): string
  {
    if n < 0 then "-" + ShowNat(-n) else ShowNat(n)
  }

  lemma {:induction false} ShowNatValue(n: nat)
    ensures DigitsWithUnderscores(ShowNat(n))
    ensures DigitsValue(ShowNat(n)) == n
  {
    var r := ShowNat(n);
    if n >= 10 {
      ShowNatValue(n / 10);
      assert r[..|r| - 1] == ShowNat(n / 10);
    }
  }

  /** Stripping leaves a text that starts and ends with a non-space as it is. */
  lemma StripTrimmed(t: string)
    requires |t| > 0 && !IsSpace(t[0]) && !IsSpace(t[|t| - 1])
    ensures Strip(t) == t
  {
  }

  /** `int(str(n)) == n`. */
  lemma ParseShow(n: int)
    ensures ParseInt(ShowInt(n)) == Some(n)
  {
    var m: nat := if n < 0 then -n else n;
    if n < 0 {
      assert ShowInt(n) == "-" + ShowNat(m);
      ParseShowNegative(m);
    } else {
      assert ShowInt(n) == ShowNat(m);
      ParseShowNat(m);
    }
  }

  lemma ParseShowNat(n: nat)
    ensures ParseInt(ShowNat(n)) == Some(n)
  {
    ShowNatValue(n);
    StripTrimmed(ShowNat(n));
    assert ParseUnsigned(ShowNat(n)) == Some(n);
  }

  lemma ParseShowNegative(m: nat)
    requires m > 0
    ensures ParseInt("-" + ShowNat(m)) == Some(-(m as int))
  {
    ShowNatValue(m);
    var s := "-" + ShowNat(m);
    assert s[1..] == ShowNat(m);
    ParseNegated(s, m);
  }

  /** Whitespace around the number is ignored: `int(" 8\n") == 8`. */
  lemma {:induction false} ParseIgnoresSpaces(a: string, t: string, b: string)
    requires (forall i :: 0 <= i < |a| ==> IsSpace(a[i])) && (forall i :: 0 <= i < |b| ==> IsSpace(b[i]))
    requires |t| > 0 && !IsSpace(t[0]) && !IsSpace(t[|t| - 1])
    ensures ParseInt(a + t + b) == ParseInt(t)
  {
    StripSurrounded(a, t, b);
    StripTrimmed(t);
    assert Strip(a + t + b) == Strip(t);
  }

  lemma StripSurrounded(a: string, t: string, b: string)
    requires (forall i :: 0 <= i < |a| ==> IsSpace(a[i])) && (forall i :: 0 <= i < |b| ==> IsSpace(b[i]))
    requires |t| > 0 && !IsSpace(t[0]) && !IsSpace(t[|t| - 1])
    ensures Strip(a + t + b) == t
  {
    assert a + t + b == a + (t + b);
    StripLeftSpaces(a, t + b);
    StripRightSpaces(t, b);
  }

  lemma {:induction false} StripLeftSpaces(a: string, u: string)
    requires forall i :: 0 <= i < |a| ==> IsSpace(a[i])
    requires |u| > 0 && !IsSpace(u[0])
    ensures StripLeft(a + u) == u
  {
    if a != [] {
      assert (a + u)[1..] == a[1..] + u;
      StripLeftSpaces(a[1..], u);
    } else {
      assert a + u == u;
    }
  }

  lemma {:induction false} StripRightSpaces(u: string, b: string)
    requires forall i :: 0 <= i < |b| ==> IsSpace(b[i])
    requires |u| > 0 && !IsSpace(u[|u| - 1])
    ensures StripRight(u + b) == u
  {
    if b != [] {
      assert (u + b)[..|u + b| - 1] == u + b[..|b| - 1];
      StripRightSpaces(u, b[..|b| - 1]);
    } else {
      assert u + b == u;
    }
  }

  /** A stripped text that does not start with a sign is read as an unsigned number. */
  lemma ParseUnsignedText(t: string)
    requires |t| > 0 && !IsSpace(t[0]) && !IsSpace(t[|t| - 1])
    requires t[0] != '-' && t[0] != '+'
    ensures ParseUnsigned(t).None? ==> ParseInt(t).None?
    ensures ParseUnsigned(t).Some? ==> ParseInt(t) == Some(ParseUnsigned(t).value as int)
  {
    StripTrimmed(t);
  }

  lemma UnsignedDigit(c: char)
    requires IsDigit(c)
    ensures ParseUnsigned([c]) == Some(DigitValue(c))
  {
    var d := [c];
    assert d[..0] == [] && d[0] == c;
    assert DigitsWithUnderscores(d);
    assert DigitsValue(d) == DigitValue(c);
  }

  /** `int()` ignores surrounding whitespace. */
  lemma ParseAcceptsSpaces()
    ensures ParseInt(" 8\n") == Some(8)
  {
    StripSurrounded(" ", "8", "\n");
    assert " " + "8" + "\n" == " 8\n";
    UnsignedDigit('8');
    ParseUnsignedText("8");
  }

  /** A minus sign negates the number after it. */
  lemma ParseNegated(t: string, m: nat)
    requires |t| > 1 && t[0] == '-' && ParseUnsigned(t[1..]) == Some(m)
    ensures ParseInt(t) == Some(-(m as int))
  {
    var d := t[1..];
    assert t[|t| - 1] == d[|d| - 1];
    StripTrimmed(t);
  }

  /** `int()` takes a sign, so a negative width is read as such. */
  lemma ParseAcceptsSign()
    ensures ParseInt("-4") == Some(-4)
  {
    assert "-4"[1..] == ['4'];
    UnsignedDigit('4');
    ParseNegated("-4", 4);
  }

  lemma UnsignedTen() ensures ParseUnsigned("1_0") == Some(10)
  {
    assert "1_0"[..2] == "1_" && "1_"[..1] == "1" && "1"[..0] == [];
  }

  /** `int()` skips a single underscore between digits. */
  lemma ParseAcceptsUnderscore()
    ensures ParseInt("1_0") == Some(10)
  {
    ParseUnsignedText("1_0");
    UnsignedTen();
  }

  /** A stripped text starting with neither a digit nor a sign is not a number. */
  lemma ParseRejectsNonDigit(t: string)
    requires |t| > 0 && !IsSpace(t[0]) && !IsSpace(t[|t| - 1])
    requires !IsDigit(t[0]) && t[0] != '-' && t[0] != '+'
    ensures ParseInt(t) == None
  {
    ParseUnsignedText(t);
  }

  /** `indent_size = tab` is not a number, so the width falls back to the default. */
  lemma ParseRejectsWord()
    ensures ParseInt("tab") == None
  {
    ParseRejectsNonDigit("tab");
  }

  /** Two underscores in a row are refused. */
  lemma ParseRejectsDoubleUnderscore(t: string, i: nat)
    requires |t| > 0 && !IsSpace(t[0]) && !IsSpace(t[|t| - 1])
    requires t[0] != '-' && t[0] != '+'
    requires i + 1 < |t| && t[i] == '_' && t[i + 1] == '_'
    ensures ParseInt(t) == None
  {
    ParseUnsignedText(t);
    assert !DigitsWithUnderscores(t);
  }

  lemma ParseRejectsUnderscorePair()
    ensures ParseInt("1__0") == None
  {
    ParseRejectsDoubleUnderscore("1__0", 1);
  }

  // ---------------------------------------------------------------------------
  // Precedence of the settings.

  /** The tab width: the argument, else `indent_size` when `int()` accepts it, else 4. */
  function ResolveTabWidth(arg: Option<int>, options: map<string, string>): (w: int)
    ensures arg.Some? ==> w == arg.value
    ensures arg.None? && "indent_size" in options && ParseInt(options["indent_size"]).Some?
      ==> w == ParseInt(options["indent_size"]).value
    ensures arg.None? && ("indent_size" !in options || ParseInt(options["indent_size"]).None?) ==> w == 4
  {
    match arg
    case Some(w) => w
    case None =>
      if "indent_size" in options && ParseInt(options["indent_size"]).Some? then
        ParseInt(options["indent_size"]).value
      else 4
  }

  /** Whether to trim: the argument, else `trim_trailing_whitespace == "true"`, else true. */
  function ResolveTrim(arg: Option<bool>, options: map<string, string>): (trim: bool)
    ensures arg.Some? ==> trim == arg.value
    ensures arg.None? && "trim_trailing_whitespace" in options
      ==> (trim <==> options["trim_trailing_whitespace"] == "true")
    ensures arg.None? && "trim_trailing_whitespace" !in options ==> trim
  {
    match arg
    case Some(t) => t
    case None =>
      if "trim_trailing_whitespace" in options then options["trim_trailing_whitespace"] == "true"
      else true
  }

  /** The indent style as far as the argument and `indent_style` settle it; `None` leaves it to the vote. */
  function ResolveStyle(arg: Option<bool>, options: map<string, string>): (useTabs: Option<bool>)
    ensures arg.Some? ==> useTabs == arg
    ensures arg.None? && "indent_style" in options ==> useTabs == Some(options["indent_style"] == "tab")
    ensures useTabs.None? <==> arg.None? && "indent_style" !in options
  {
    match arg
    case Some(t) => arg
    case None =>
      if "indent_style" in options then Some(options["indent_style"] == "tab") else None
  }

  /** The names `end_of_line` may take, and the break each stands for. */
  const LineEndingNames: map<string, string> := map["lf" := "\n", "crlf" := "\r\n", "cr" := "\r"]

  /** The line break to write: the argument's, else `end_of_line`'s, else `None` (keep the text's own);
      a name that is not in the table is Python's `KeyError`. */
  function ResolveLineEnding(arg: Option<string>, options: map<string, string>): (r: Result<Option<string>>)
    ensures r.Fail? <==> var name := if arg.Some? then arg else if "end_of_line" in options then Some(options["end_of_line"]) else None;
      name.Some? && name.value !in LineEndingNames
    ensures r.Fail? ==> r.error.KeyError?
    ensures r.Ok? && r.value.Some? ==> r.value.value in {"\n", "\r\n", "\r"}
    ensures r == Ok(None) <==> arg.None? && "end_of_line" !in options
    ensures arg.Some? && arg.value == "crlf" ==> r == Ok(Some("\r\n"))
  {
    var name := if arg.Some? then arg else if "end_of_line" in options then Some(options["end_of_line"]) else None;
    match name
    case None => Ok(None)
    case Some(n) => if n in LineEndingNames then Ok(Some(LineEndingNames[n])) else Fail(KeyError(n))
  }

  // ---------------------------------------------------------------------------
  // The majority vote on the first character of the lines.

  /** `l[:1] == c`. */
  predicate StartsWith(l: string, c: char) { |l| > 0 && l[0] == c }

  /** How many of `lines` start with `c`. */
  function CountStarting(lines: seq<string>, c: char): nat
  {
    if lines == [] then 0
    else CountStarting(lines[..|lines| - 1], c) + (if StartsWith(lines[|lines| - 1], c) then 1 else 0)
  }

  /** The tally loop: tabs win only with strictly more lines; a tie goes to spaces. */
  method PreferTabs(lines: seq<string>) returns (useTabs: bool)
    ensures useTabs <==> CountStarting(lines, '\t') > CountStarting(lines, ' ')
  {
    var tabs, spaces := 0, 0;
    for i := 0 to |lines|
      invariant tabs == CountStarting(lines[..i], '\t')
      invariant spaces == CountStarting(lines[..i], ' ')
    {
      assert lines[..i + 1][..i] == lines[..i];
      if |lines[i]| > 0 && lines[i][0] == '\t' {
        tabs := tabs + 1;
        continue;
      }
      if |lines[i]| > 0 && lines[i][0] == ' ' {
        spaces := spaces + 1;
      }
    }
    assert lines[..|lines|] == lines;
    useTabs := tabs > spaces;
  }

  /** The indices of the lines that start with `c`. */
  function Starting(lines: seq<string>, c: char): set<nat>
  {
    set i: nat | i < |lines| && StartsWith(lines[i], c)
  }

  /** The tally counts exactly the lines that start with `c`. */
  lemma {:induction false} CountStartingIsCard(lines: seq<string>, c: char)
    ensures CountStarting(lines, c) == |Starting(lines, c)|
  {
    if lines != [] {
      var init := lines[..|lines| - 1];
      var n := |lines| - 1;
      CountStartingIsCard(init, c);
      if StartsWith(lines[n], c) {
        assert Starting(lines, c) == Starting(init, c) + {n};
      } else {
        assert Starting(lines, c) == Starting(init, c);
      }
    }
  }

  /** No line counts for both styles, so the two tallies together never exceed the number of lines. */
  lemma {:induction false} TalliesBounded(lines: seq<string>)
    ensures CountStarting(lines, '\t') + CountStarting(lines, ' ') <= |lines|
  {
    if lines != [] {
      TalliesBounded(lines[..|lines| - 1]);
    }
  }
}
