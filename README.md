# unifile indentation fixer, modelled in Dafny

`src/unifile.py` rewrites the indentation of a text file. It follows the
file's `.editorconfig` properties, and command-line arguments override them.
Its core is two per-line scans:

- `fix_spaces` expands every tab to the spaces that reach the same tab stop.
- `fix_tabs` turns every run of blanks that reaches a tab stop into a tab,
  keeping a single space between two words as it is.

Either can drop the blanks that stand right before a `\r` or `\n`.

`fix_indents_in_file` drives the scans:
1. It splits the decoded text at the first of `\r\n`, `\n`, `\r` that the
   text contains, and appends `"\n"` to every piece.
2. It settles each setting: the argument, else the `.editorconfig` property,
   else a default. For the indent style the default is a majority vote over
   the lines' first characters.
3. It fixes every line.
4. It joins the lines again, without their last character, using the chosen
   break. One more break is added when the text ended in its own.

## Modules

- `wrappers.dfy`: `Option`, and `Result` with the two Python errors that can
  occur (`IndexError`, `KeyError`).
- `columns.dfy`: the column model shared by both scans.
  - `ColumnAfter(s, w)` is the display column reached after `s`: a tab moves
    to the next multiple of `w`, any other character moves by one.
  - `Marks(s, w)` lists every character other than a space or a tab, with the
    column it is displayed at.
  - `Visible(s)` lists the same characters without their columns.
- `space_fixer.dfy`:
  - `method FixSpaces` is the loop of `fix_spaces`.
  - `SpacesRun` states the same loop as a fold over the prefixes of the line.
  - The lemmas state what the scan guarantees.
- `tab_fixer.dfy`: the same for `fix_tabs`.
  - `TabsRun` is indexed by position, because the scan looks one character
    ahead.
  - A space that is the last character, reached with nothing pending, makes
    that look-ahead fail. The model returns this as `Fail(IndexError(|line|))`
    and does not exclude it by a precondition.
- `lines.dfy`:
  - Python's `str.find`, `in`, `split` and `join` on strings.
  - The line split of `fix_indents_in_file` (`method SplitText`) and the
    rejoin of the fixed lines.
- `options.dfy`:
  - Python's `int()` on a string.
  - How each setting is resolved from the argument and the properties.
  - The majority vote (`method PreferTabs`).
- `driver.dfy`: the text pipeline of `fix_indents_in_file`, both as one
  function (`FixedText`) and as a method that takes the source's steps in the
  source's order (`FixIndentsInText`). Its lemmas state what the pipeline
  guarantees.
- `cases.dfy`: concrete inputs. The single-line cases are instances of the
  general lemmas. The two lines showing that `fix_tabs` is not idempotent
  with trimming on, and the text `"a\n"` through the whole pipeline, are
  followed step by step.

How the source is structured, and how the model follows it:
- The two scans are `for` loops that update `result`, `spaces`, `tabs` and
  `pos`. They are modelled as methods with the same loops.
- Each loop invariant ties the loop variables to the fold function. The
  properties are then proved by induction over the fold.
- The vote, the settings and the fixing loop are methods too, each proved to
  compute its specification function.
- The split and the join are pure expressions in the source, and are
  functions here.

The rejoin is modelled as written. `text.split(line_break)` ends with an empty
piece when the text ends in its break, and the break is then appended once
more. So a text ending in its break comes out with one more break than it went
in with. For example, `"a\n"` becomes `"a\n\n"`: see `SplitRejoin` and
`Cases.TrailingBreakDoubled`.

Two facts about the code that the model makes explicit:
- `fix_tabs` is not total. It reads `line[i+1]` and raises `IndexError` on a
  line whose last character is a space, when that space is the whole line or
  follows a character other than a space or a tab (`TabFixer.FixedTabsFailure`).
  It cannot do so on the lines the driver builds, which all end in `"\n"`
  (`Driver.FixAllSucceeds`).
- Both fixers return `result` without the blanks still pending at the end of
  the line, whatever the trim setting (`FixedSpacesDropsTrailingBlanks`,
  `FixedTabsDropsTrailingBlanks`).

## Model

| member | source | states |
|---|---|---|
| SpaceFixer.FixSpaces | src/unifile.py:26-45 | The loop computes `FixedSpaces`. Its output has no tab and keeps the visible characters in order. Without trimming, every visible character stays at its display column. |
| SpaceFixer.SpacesShape | src/unifile.py:26-45 | During the scan, `pos` is always the length of `result`. The pending run holds only spaces, and no tab is ever output. |
| SpaceFixer.SpacesKeepVisible | src/unifile.py:31-41 | After any prefix, the output holds exactly the prefix's characters other than space and tab, in order, line breaks included. |
| SpaceFixer.SpacesKeepColumns | src/unifile.py:35-44 | Unless a break has been trimmed, the output's marks equal the input's. The output plus the pending spaces reach the input's display column. |
| SpaceFixer.FixedSpacesKeepsColumns | src/unifile.py:26-45 | With trimming off, every visible character of the output is at its input display column, and the output holds no tab. |
| SpaceFixer.FixedSpacesKeepsColumnsBeforeBreak | src/unifile.py:35-41 | With trimming on, the marks of any break-free prefix of the line are a prefix of the output's marks. |
| SpaceFixer.SpacesOutputShape | src/unifile.py:35-45 | The output never ends in a blank. With trimming on, no blank stands before a break. |
| SpaceFixer.SpacesGrow | src/unifile.py:30-41 | The output only grows as the scan proceeds: the output for a prefix is a prefix of the output for the whole. |
| SpaceFixer.FixedSpacesDropsTrailingBlanks | src/unifile.py:32-45 | Blanks at the very end of the line are dropped, whatever the trim setting. |
| SpaceFixer.BlankRunResult | src/unifile.py:31-33 | A run of blanks adds nothing to the output and does not move `pos`. |
| SpaceFixer.FixedSpacesTrimsBeforeBreak | src/unifile.py:35-41 | With trimming on, the blanks right before a break are discarded. |
| SpaceFixer.FixedSpacesFlushesBeforeBreak | src/unifile.py:35-44 | With trimming off, the blanks right before a break come out as the spaces that span their columns. |
| SpaceFixer.PendingEmptyAfterVisible | src/unifile.py:39 | After a visible character nothing is pending. |
| SpaceFixer.FixedSpacesCopiesTail | src/unifile.py:34-41 | After a visible character, text without blanks is copied verbatim. |
| SpaceFixer.FixedSpacesIndent | src/unifile.py:42-44 | A line made of a blank run, then a visible character, then blank-free text comes out as the spaces that reach the run's column, then the text. With trimming on, a run before a break is left out: it is dropped (`FixedSpacesTrimsBeforeBreak`). |
| SpaceFixer.FixedSpacesLeadingTabs | src/unifile.py:43-44 | Each leading tab becomes exactly `w` spaces. |
| SpaceFixer.SpacesCopyFixpoint | src/unifile.py:30-41 | On tab-free input with no trimmed blank before a break, the output plus the pending run is the input. |
| SpaceFixer.FixedSpacesFixpoint | src/unifile.py:26-45 | `fix_spaces` leaves a line unchanged if and only if the line has no tab, does not end in a blank, and (with trimming on) has no blank before a break. |
| SpaceFixer.FixedSpacesIdempotent | src/unifile.py:26-45 | Fixing twice gives the same as fixing once. |
| SpaceFixer.FixedSpacesKeepsLastVisible | src/unifile.py:34-41 | A line that ends in a visible character, such as `"\n"`, still ends in it after the fix. |
| TabFixer.FixTabs | src/unifile.py:48-82 | The loop computes `FixedTabs`. It fails exactly when the line ends in a space that is either the whole line or follows a character other than a space or a tab. On success it keeps the visible characters in order, and with trimming off it keeps every one at its display column. |
| TabFixer.TabsFailOnlyAtEnd | src/unifile.py:71 | The look-ahead can only fail on the last character of the line. |
| TabFixer.FixedTabsFailure | src/unifile.py:71 | `fix_tabs` raises `IndexError` at index `len(line)` if and only if the line ends in a space that is the whole line or follows a character other than a space or a tab. |
| TabFixer.PendingBeforeLastSpace | src/unifile.py:54-71 | Before a final space nothing is pending exactly when that space is the whole line or follows a character other than a space or a tab. |
| TabFixer.FixedTabsSucceeds | src/unifile.py:71 | A line that does not end in a space is always fixed without error. |
| TabFixer.TabsShape | src/unifile.py:54-81 | The pending `spaces` hold only spaces and the pending `tabs` only tabs. |
| TabFixer.TabsKeepVisible | src/unifile.py:59-68 | After any prefix, the output holds exactly the prefix's characters other than space and tab, in order. |
| TabFixer.FixedTabsKeepsVisible | src/unifile.py:48-82 | A successful `fix_tabs` keeps every character other than space and tab, in order, and nothing else visible. |
| TabFixer.TabsKeepColumns | src/unifile.py:53-81 | The column invariant of the scan, which holds until a break is trimmed. The output's marks equal the input's. `pos` is the column reached by the output and the pending tabs. The pending spaces stay short of the next tab stop. |
| TabFixer.FixedTabsKeepsColumns | src/unifile.py:48-82 | With trimming off, re-expanding the output puts every visible character at its input display column. |
| TabFixer.FixedTabsKeepsColumnsBeforeBreak | src/unifile.py:59-69 | With trimming on, the marks of any break-free prefix of the line are a prefix of the output's marks. |
| TabFixer.TabsTidy | src/unifile.py:59-81 | The output only ends in a blank during a single space between words. With trimming on, no blank precedes a break. |
| TabFixer.FixedTabsOutputShape | src/unifile.py:59-82 | The finished output never ends in a blank. With trimming on, no blank stands before a break. |
| TabFixer.TabsGrow | src/unifile.py:53-81 | The output only grows as the scan proceeds, and a run that succeeds succeeded on every prefix. |
| TabFixer.TabsRunPrefix | src/unifile.py:53-71 | The scan of a prefix depends only on the prefix and on the character the look-ahead reads. |
| TabFixer.FixedTabsDropsTrailingBlanks | src/unifile.py:76-82 | Blanks at the very end of a line are dropped. |
| TabFixer.FixedTabsTrimsBeforeBreak | src/unifile.py:59-69 | With trimming on, the blanks right before a break are discarded and the break is kept. |
| TabFixer.FixedTabsCopiesTail | src/unifile.py:59-69 | After a visible character, text without blanks is copied verbatim. |
| TabFixer.FixedTabsReachesColumn | src/unifile.py:53-69 | A line that is empty or ends in a visible character, and when trimming holds no break, is fixed without error, leaves nothing pending, and its output reaches the line's display column. |
| TabFixer.RunBlanks | src/unifile.py:76-81 | The blanks written for a run from one column to another are blanks only. |
| TabFixer.ColumnAfterRunBlanks | src/unifile.py:54-81 | Output that reaches a column, followed by the run's blanks to a later column, reaches exactly that later column. |
| TabFixer.FixedTabsCollapse | src/unifile.py:53-81 | Anywhere in a line, after a prefix that is empty or ends in a visible character: a blank run before a visible character, other than a single space before a character that is not a break, comes out as one tab per tab stop passed between the two columns, then the spaces past the last stop (or, with no stop passed, as many spaces as the columns it spans). The prefix is fixed as on its own and the blank-free text after `c` is copied. With trimming on, this is stated for a prefix without breaks and a `c` that is not a break. |
| TabFixer.FixedTabsSingleSpace | src/unifile.py:71-75 | Anywhere in a line, at every width, one space between a visible character (or the line start) and a visible character that is not a break stays one space. |
| TabFixer.FixedTabsIndent | src/unifile.py:53-81 | A leading blank run before a visible character comes out as one tab per tab stop it reaches, then the spaces left over, then the text. Two runs are left out. A single leading space at width 1 before a character that is not a break stays a space (`FixedTabsSingleSpace`, `Cases.TabsKeepSpaceWidthOne`). With trimming on, a run before a break is dropped (`FixedTabsTrimsBeforeBreak`). |
| TabFixer.IndentSingleSpace | src/unifile.py:71-75 | At widths above 1, one leading space before a visible character that is not a break stays a space. |
| TabFixer.IndentCollapse | src/unifile.py:53-81 | Any other leading run becomes the blanks from column 0 to the column the run reaches. |
| TabFixer.LeadingRunBlanks | src/unifile.py:76-81 | From column 0, a run's blanks are one tab per stop reached, then the spaces past the last one. |
| TabFixer.DropTrailingBlanks | src/unifile.py:76-82 | The line without its trailing blanks: a prefix that is empty or ends in a visible character, followed only by blanks. |
| TabFixer.FixedTabsIdempotent | src/unifile.py:48-82 | Fixing a successfully fixed line again gives the same output, with trimming off, and with trimming on when no break stands before the last character. |
| TabFixer.FixedTabsKeepsLastVisible | src/unifile.py:59-69 | A line ending in a visible character, such as `"\n"`, is fixed without error and still ends in it. |
| LineSplit.IndexOf | src/unifile.py:120 | The first index at which the separator occurs, with no occurrence before it. `None` if and only if it occurs nowhere. |
| LineSplit.ContainsMeansOccurs | src/unifile.py:120 | `sep in text` holds if and only if the separator occurs at some index. |
| LineSplit.SplitJoin | src/unifile.py:121 | Joining the pieces of `text.split(sep)` with `sep` gives the text back. |
| LineSplit.SplitPiecesFree | src/unifile.py:121 | No piece of a split contains the separator. |
| LineSplit.SplitAbsent | src/unifile.py:121 | A text without the separator splits into itself alone. |
| LineSplit.FirstContained | src/unifile.py:119-122 | The first candidate break that occurs in the text, or none if no candidate occurs. |
| LineSplit.LineBreakPriority | src/unifile.py:119-125 | The delimiter is `\r\n` if present, else `\n` if present, else `\r` if present, else `\n`. |
| LineSplit.SplitText | src/unifile.py:119-126 | The loop over the candidate breaks computes the delimiter, the lines, and whether the text lacks a final break. |
| LineSplit.WithNewline | src/unifile.py:121 | Every piece gets `"\n"` appended, and the order and count are kept. |
| LineSplit.LinesEndInNewline | src/unifile.py:119-125 | There is at least one line, and every line ends in `"\n"`. |
| LineSplit.LinesArePieces | src/unifile.py:121-125 | Line `i` is piece `i` of the split at the delimiter, plus `"\n"`. |
| LineSplit.LinesPieces | src/unifile.py:121-125 | Dropping the last character of every line gives the pieces of the split back. |
| LineSplit.LastChars | src/unifile.py:126 | `text[-n:]`: the last `n` characters, or the whole text when it is shorter. |
| LineSplit.LastCharsEndsWith | src/unifile.py:126 | `text[-len(lb):] != lb` holds if and only if the text does not end with `lb`. |
| LineSplit.DropLasts | src/unifile.py:196 | `[l[:-1] for l in result]`: every line without its last character. |
| LineSplit.SplitRejoin | src/unifile.py:193-198 | Rejoining the unfixed lines gives the text back, with one more break when the text ended in its own. |
| Options.StripLeft | src/unifile.py:160 | Leading whitespace removed. The result is a suffix that does not start with whitespace. |
| Options.StripRight | src/unifile.py:160 | Trailing whitespace removed. The result is a prefix that does not end in whitespace. |
| Options.ParseUnsigned | src/unifile.py:160 | A number is read if and only if the text is digits with single underscores between them. |
| Options.ShowNatValue | src/unifile.py:160 | The decimal digits of `n` are a valid number whose value is `n`. |
| Options.ParseShow | src/unifile.py:160 | `int(str(n)) == n` for every integer, negative ones included. The digit-count limit of recent Python versions is not modelled (see the `Options.ParseInt` line under "## Left out"). |
| Options.ParseIgnoresSpaces | src/unifile.py:160 | Whitespace around the number is ignored. |
| Options.ParseNegated | src/unifile.py:160 | A leading `-` negates the number after it. |
| Options.ParseRejectsNonDigit | src/unifile.py:159-162 | A value that starts with neither a digit nor a sign, such as `tab`, is not a number, so `ValueError` is caught. |
| Options.ParseRejectsDoubleUnderscore | src/unifile.py:159-162 | Two underscores in a row make the value unreadable. |
| Options.ParseAcceptsSpaces | src/unifile.py:160 | `int(" 8\n") == 8`. |
| Options.ParseAcceptsSign | src/unifile.py:160 | `int("-4") == -4`. |
| Options.ParseAcceptsUnderscore | src/unifile.py:160 | `int("1_0") == 10`. |
| Options.ParseRejectsWord | src/unifile.py:159-162 | `int("tab")` raises, so the width falls back to the default. |
| Options.ResolveTabWidth | src/unifile.py:157-165 | The width is the argument if given. Otherwise it is `indent_size` if present and readable. Otherwise it is `4`. |
| Options.ResolveTrim | src/unifile.py:167-172 | Trimming is the argument if given. Otherwise it is `trim_trailing_whitespace == "true"` if present. Otherwise it is on. |
| Options.ResolveStyle | src/unifile.py:141-143 | The style is the argument if given, else `indent_style == "tab"` if present. It is undecided exactly when both are missing. |
| Options.ResolveLineEnding | src/unifile.py:174-179 | The name comes from the argument, else from `end_of_line`. It maps to `\n`, `\r\n` or `\r`. An unknown name raises `KeyError`. With no name, nothing is configured. |
| Options.PreferTabs | src/unifile.py:145-154 | The counting loop chooses tabs if and only if strictly more lines start with a tab than with a space, so a tie goes to spaces. |
| Options.CountStartingIsCard | src/unifile.py:145-154 | The tally for a character is the number of lines that start with it. |
| Options.TalliesBounded | src/unifile.py:145-154 | The two tallies together never exceed the number of lines. |
| Driver.UseTabs | src/unifile.py:141-154 | The style is the argument or property when given, else the outcome of the vote. |
| Driver.Suggestions | src/unifile.py:155-172 | `suggest` gets `indent_style` exactly when the vote decided it (`"tab"` or `"space"`), `indent_size` `"4"` exactly when the width defaulted, and `trim_trailing_whitespace` `"true"` exactly when trimming defaulted. It has no other key. |
| Driver.Settle | src/unifile.py:141-179 | The settings are the resolved style, width, trim, line ending and suggestions. They fail exactly when the line-ending name is unknown. |
| Driver.SettleStyle | src/unifile.py:141-155 | The style steps compute `UseTabs`, with the matching suggestion. |
| Driver.SettleWidth | src/unifile.py:157-165 | The width steps compute `ResolveTabWidth`, with the matching suggestion. |
| Driver.SettleTrim | src/unifile.py:167-172 | The trim steps compute `ResolveTrim`, with the matching suggestion. |
| Driver.SettleLineEnding | src/unifile.py:174-179 | The line-ending steps compute `ResolveLineEnding`. |
| Driver.SettleSettings | src/unifile.py:141-179 | All the setting steps, in the source's order, compute `Settle`. |
| Driver.FixLines | src/unifile.py:181-186 | The loop over the lines, all ending in `"\n"`, fixes each with the selected fixer and raises nothing. |
| Driver.FixIndentsInText | src/unifile.py:119-198 | Split, settle, fix and rejoin, in the source's order, compute `FixedText`. |
| Driver.FixedTextShape | src/unifile.py:181-198 | Once the line ending resolves, every line is fixed and the output is the fixed lines rejoined. |
| Driver.FixAllSucceeds | src/unifile.py:181-186 | Lines that all end in `"\n"` are all fixed, one result per line, and each result still ends in `"\n"`. |
| Driver.LastIsNewline | src/unifile.py:181-186 | A line ending in `"\n"` is fixed without error by either fixer and still ends in `"\n"`. |
| Driver.FixedTextFails | src/unifile.py:179 | The pipeline fails if and only if the line-ending name is unknown, and then with a `KeyError`. |
| Driver.EmptyTextWritesNothing | src/unifile.py:193 | An empty text writes nothing. |
| Driver.FixedPieceKeepsVisible | src/unifile.py:181-196 | A piece with `"\n"` appended, fixed, then cut back by one character, has the piece's visible characters. |
| Driver.FixedLinesKeepVisible | src/unifile.py:181-196 | The fixed lines, cut back and joined, have the visible characters of the pieces joined. |
| Driver.FixedPiecesOfText | src/unifile.py:119-186 | Fixed line `i` of a text is piece `i` of its split, with `"\n"` appended, through the selected fixer. |
| Driver.WrittenKeepsVisible | src/unifile.py:192-198 | The visible characters of the output are those of the text's pieces, joined with the break written, plus one more break when the text ended in its own. |
| Driver.FixedTextKeepsVisible | src/unifile.py:119-198 | Only whitespace and breaks change. The visible characters written are those of the text's pieces, joined with the break written, plus one more break when the text ended in its own. |
| Driver.SpacedLinesNoTabs | src/unifile.py:181-186 | Lines fixed with spaces hold no tab once cut back. |
| Driver.RejoinNoTabs | src/unifile.py:196-198 | Tab-free lines rejoined with a tab-free break hold no tab. |
| Driver.OutBreakNoTabs | src/unifile.py:194-195 | Every break the output can be written with is tab-free. |
| Driver.WrittenNoTabs | src/unifile.py:181-198 | The text's lines fixed with spaces and rejoined hold no tab. |
| Driver.SpacesTextHasNoTabs | src/unifile.py:119-198 | With spaces selected, the file written holds no tab at all. |
| Driver.FixAllFixpoint | src/unifile.py:181-186 | Lines that the fixer leaves alone one by one are left alone together. |
| Driver.NormalizedLineUnchanged | src/unifile.py:186 | A tab-free piece with `"\n"` appended, with no trimmed blank before a break, is left alone by `fix_spaces`. |
| Driver.NormalizedLinesUnchanged | src/unifile.py:181-186 | Such pieces are left alone together. |
| Driver.NormalizedWritten | src/unifile.py:193-198 | A normalized text is written back as it is, plus one break when it ended in its own. |
| Driver.NormalizedTextUnchanged | src/unifile.py:119-198 | With spaces selected, no line ending configured and a normalized text, the output is the text, plus its break again if it ended in one. An empty text gives an empty output. |
| Cases.SpacesExpandLeadingTab | src/unifile.py:42-44 | At width 4, `"\tfoo\n"` becomes `"    foo\n"`. |
| Cases.SpacesExpandTwoTabs | src/unifile.py:42-44 | At width 4, `"\t\tbar"` becomes eight spaces and `bar`. |
| Cases.SpacesExpandAndTrim | src/unifile.py:35-44 | At width 4 with trimming, `"\t\tbar  \n"` becomes eight spaces and `"bar\n"`. |
| Cases.SpacesTrimTrailing | src/unifile.py:35-41 | `"x   \n"` becomes `"x\n"` with trimming, and stays as it is without. |
| Cases.TabsCopyWord | src/unifile.py:59-69 | A line without blanks is copied by `fix_tabs`. |
| Cases.TabsKeepSingleSpace | src/unifile.py:71-75 | `"a b\n"` is unchanged by `fix_tabs` at every width. |
| Cases.TabsKeepSpaceOnStop | src/unifile.py:71-75 | At width 4, the space of `"abc d"` stays a space, although it ends on a tab stop. |
| Cases.TabsKeepSpaceWidthOne | src/unifile.py:71-75 | At width 1, `" c"` stays as it is. |
| Cases.TabsCollapseMidLine | src/unifile.py:76-81 | At width 4, `"ab  c"` becomes `"ab\tc"`. |
| Cases.TabsTrimNotIdempotent | src/unifile.py:54-69 | At width 4 with trimming, `"a\t\r  x"` becomes `"a\r  x"`, which becomes `"a\r\tx"`. |
| Cases.TabsCollapseFour | src/unifile.py:76-81 | At width 4, `"    foo\n"` becomes `"\tfoo\n"`. |
| Cases.TabsKeepThree | src/unifile.py:76-81 | At width 4, `"   foo\n"` stays as it is. |
| Cases.LinesOfA | src/unifile.py:119-122 | `"a\n"` splits into the lines `"a\n"` and `"\n"`. |
| Cases.TrailingBreakDoubled | src/unifile.py:193-198 | With no properties and no arguments, `"a\n"` is written as `"a\n\n"`. |

## Left out

- File access is not part of this model. That covers the existence checks, `open`, reading and writing, `os.makedirs`, and the encoding fallback loop with its `charset` handling and suggestion (src/unifile.py:93-139, 188-199). The model starts from the decoded text and ends with the string that would be encoded and written.
- `get_properties` belongs to the `editorconfig` library, which is not part of this model. Its result is a parameter (`map<string, string>`). `EditorConfigError` gives `{}`, which the empty map stands for. When the import fails, `options` is never bound and the source raises `NameError` at line 104; that path is not modelled.
- `_skip` is not modelled. It is built on `re.match` with user-supplied patterns.
- `fix_indents_in_path` (the directory walk and the hidden-path filter) is not modelled, and neither are `_best_suggestions` (a stub returning `{}`), the `.editorconfig` suggestion writer, or the argparse command line.
- A tab width of zero or less is excluded by `requires tabWidth > 0`: the source then divides by zero or takes a negative modulo.
  - `FixedText` and `FixIndentsInText` therefore require that the resolved width is positive.
  - An `indent_size` of `0` or a negative value is read as such, and then crashes or misbehaves in the source.
- `Options.ParseInt` recognises ASCII whitespace and ASCII digits only. Python's `int()` also accepts other Unicode whitespace and digits. The model also has no limit on the number of digits: from Python 3.11, `int()` and `str()` refuse more than 4300 digits by default (`sys.get_int_max_str_digits`).
- `Driver.Suggestions` stores `indent_size` as the string `"4"`, where the source stores the integer `4`. The map is `map<string, string>`.
- TabFixer.FixedTabsIdempotent: idempotence is proved with trimming off, and with trimming on only for lines with no break before the last character. With trimming on, `fix_tabs` is not idempotent in general (`Cases.TabsTrimNotIdempotent`). At width 4, `"a\t\r  x"` becomes `"a\r  x"`: the tab dropped before `\r` still moved `pos` to column 4, so the two spaces are counted from column 5 and reach no stop. Fixed again, they are counted from column 2, reach column 4, and become a tab: `"a\r\tx"`. Its fixed points are not characterised.
- TabFixer.FixedTabsCollapse: with trimming on, the run is not described after a prefix that holds a break, because the trimmed blanks before that break leave `pos` past the true column (the same shift as above). Blanks right before a break are covered by `TabFixer.FixedTabsTrimsBeforeBreak`.
- `fix_spaces` and `fix_tabs` are not shown to be mutually inverse. The model states instead that both keep the visible characters and their display columns.
- The line ending is applied to the rejoin only. Line breaks inside a line are left as they are, as in the source.
