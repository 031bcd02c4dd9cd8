# vale-docs-linter, modelled in Dafny

`vale_docs_checker.py` walks a directory tree. It runs a user-supplied
command (`-c`, typically the Vale prose linter) on each file whose name
matches an optional pattern (`-p`). It then looks at each command output
that contains `warning` or `error`. That output is read, as a Vale-style
coloured terminal report, into one record per finding (file, line, column,
severity, message, rule). Last, the script prints how many findings each
(severity, rule) pair has, largest count first.

This project models the core of that script and proves properties of the
model:

- **`Ansi`** models `strip_ansi_codes`. It removes the colour sequences ESC `[` (digits or `;`)* letter from left to right, without overlaps.
- **`ShellCommand`** models how a path goes onto the command line. Each `(` and `)` gains a backslash in front. The path is then appended to the command after one space.
- **`Text`** models the Python string operations the parser relies on:
  - `strip`;
  - removing leading whitespace;
  - `split('\n')` and `join`;
  - `int` of a digit run.
- **`ValeHeader`** models the header regex `^\s*(\d+):(\d+)\s+(\w+)\s+(.+)$` and `re.split(r'\s{2,}', …)`. Both are written as greedy scans over character classes.
- **`ValeParser`** models `parse_vale_output`:
  - The specification functions are `StepAt`, `Scan` and `ParseOutput`.
  - `Lookahead` and `ScanLines` are the two loops of the source, the lookahead and the cursor loop. `ReadStep` is the cursor loop's body, and `ParseValeOutput` is the entry method. Each is proved to compute its specification function.
- **`ParserProperties`** proves what the scan guarantees:
  - which lines yield a record, and what the record holds;
  - where the cursor goes;
  - the order and the number of the records;
  - the file name the records carry;
  - that empty output gives no records.
- **`ValeFormat`** describes the layout the parser reads back, as the parser's own branches define it:
  - a file-name line;
  - one header line `L:C  severity  message  Rule` per finding, followed by its indented wrapped lines;
  - a `✖` summary line.

  It proves that parsing such a report gives back every finding, in order, with its message lines joined by single spaces.
- **`ErrorReport`** models the group-by-count report and the total, with the sort by count descending.

Python's `filename=None` default is `Option<string>`. The six parallel lists and the DataFrame become one `seq<Issue>`, one element per row.

The docstring of `run_command_for_files` speaks of a `{filepath}` placeholder. The code appends the escaped path instead, and the model follows the code.

## Model

| member | source | states |
|---|---|---|
| Ansi.CsiLength | vale-docs-linter/vale_docs_checker.py:83 | A match of the pattern at the front is ESC, `[`, a run of digits or `;`, then one ASCII letter; 0 means no match (completeness is Ansi.CsiLengthOf) |
| Ansi.CsiLengthOf | vale-docs-linter/vale_docs_checker.py:83 | Whenever a well-formed sequence stands at the front, the pattern matches exactly that sequence, so a result of 0 means no sequence starts there |
| Ansi.StripAnsi | vale-docs-linter/vale_docs_checker.py:81-84 | The result is no longer than the input and holds only characters of the input |
| Ansi.Tokens | vale-docs-linter/vale_docs_checker.py:83-84 | How the pattern cuts the text: every piece is a well-formed sequence or a text piece of exactly one copied character |
| Ansi.TokensCover | vale-docs-linter/vale_docs_checker.py:83-84 | The pieces, concatenated, are exactly the input |
| Ansi.StripAnsiRemovesMatches | vale-docs-linter/vale_docs_checker.py:81-84 | The result is the input with the matched sequences removed and the other characters kept in order |
| Ansi.StripAnsiNoEsc | vale-docs-linter/vale_docs_checker.py:81-84 | Text without an escape character comes back unchanged |
| Ansi.StripAnsiTextPrefix | vale-docs-linter/vale_docs_checker.py:81-84 | Escape-free text in front passes through, and the rest is stripped on its own |
| Ansi.StripAnsiCsiPrefix | vale-docs-linter/vale_docs_checker.py:81-84 | A well-formed sequence in front is removed whole |
| Ansi.StripAnsiRender | vale-docs-linter/vale_docs_checker.py:81-84 | Round trip: colouring escape-free text with well-formed sequences, then stripping, gives the text back |
| ShellCommand.EscapeChar | vale-docs-linter/vale_docs_checker.py:29 | A parenthesis becomes backslash and parenthesis; any other character stays as it is |
| ShellCommand.EscapeParens | vale-docs-linter/vale_docs_checker.py:29 | The escaped path is longer by exactly the number of parentheses, and it never starts with a parenthesis |
| ShellCommand.EscapeMarks | vale-docs-linter/vale_docs_checker.py:29 | Every parenthesis of the escaped path comes right after a backslash |
| ShellCommand.UnescapeChar | vale-docs-linter/vale_docs_checker.py:29 | One escaped character reads back as itself |
| ShellCommand.UnescapeEscape | vale-docs-linter/vale_docs_checker.py:29 | Removing the added backslashes gives the original path: nothing else was altered |
| ShellCommand.EscapeConcat | vale-docs-linter/vale_docs_checker.py:29 | Escaping works character by character: the escape of a concatenation is the concatenation of the escapes |
| ShellCommand.EscapeNoParens | vale-docs-linter/vale_docs_checker.py:29 | A path without parentheses is passed through verbatim |
| ShellCommand.CommandLine | vale-docs-linter/vale_docs_checker.py:31 | The line is the command, one space, then the escaped path, which reads back as the original path; its length is fixed by the parenthesis count |
| Text.IsSpace | vale-docs-linter/vale_docs_checker.py:126-149 | The `\s` class and `str.isspace()` on ASCII: space and 0x09 to 0x0D, plus 0x1C to 0x1F; characterized through Text.TrimStartSpace, Text.StripSlice and Text.StripEmptyIff |
| Text.Span | vale-docs-linter/vale_docs_checker.py:126 | A greedy run of one character class: it stops at the end or at the first character outside the class; with Text.SpanAll, every character before the stop is in the class |
| Text.SpanAll | vale-docs-linter/vale_docs_checker.py:126 | Every character of the run is in the class, so the run is the longest prefix in the class |
| Text.TrimStart | vale-docs-linter/vale_docs_checker.py:149 | `re.sub(r'^\s+', '', s)`: the result does not start with whitespace; Text.TrimStartSpan pins it as exactly the suffix after the leading whitespace run |
| Text.TrimStartSpace | vale-docs-linter/vale_docs_checker.py:149 | Only whitespace is removed; the exact suffix is Text.TrimStartSpan |
| Text.TrimStartSpan | vale-docs-linter/vale_docs_checker.py:149 | The result is exactly the input after its leading whitespace run, as `^\s+` matches it |
| Text.TrimEnd | vale-docs-linter/vale_docs_checker.py:117 | A prefix of the input that does not end with whitespace |
| Text.TrimEndSpace | vale-docs-linter/vale_docs_checker.py:117 | Only whitespace is removed at the end |
| Text.Strip | vale-docs-linter/vale_docs_checker.py:117 | `str.strip()`: the result is trimmed at both ends and holds no line feed when the input holds none |
| Text.StripSlice | vale-docs-linter/vale_docs_checker.py:117 | The result is the slice after the leading whitespace, with only whitespace left out after it |
| Text.StripEmptyIff | vale-docs-linter/vale_docs_checker.py:120 | `not line.strip()` holds exactly when the line is all whitespace |
| Text.StripTrimmed | vale-docs-linter/vale_docs_checker.py:141 | Stripping already trimmed text changes nothing |
| Text.StripIndented | vale-docs-linter/vale_docs_checker.py:146-149 | Stripping removes an indentation in front of trimmed text |
| Text.SplitLines | vale-docs-linter/vale_docs_checker.py:106 | `split('\n')` gives at least one line, none holding a line feed, and joining them gives the text back |
| Text.SplitJoinLines | vale-docs-linter/vale_docs_checker.py:106 | Splitting undoes joining for lines without line feeds |
| Text.JoinLines | vale-docs-linter/vale_docs_checker.py:106 | `'\n'.join(lines)`, the inverse of `split('\n')`: Text.SplitLines and Text.SplitJoinLines prove the round trip both ways |
| Text.JoinWith | vale-docs-linter/vale_docs_checker.py:137 | `sep.join(parts)`; characterized by Text.JoinWithCons (head, separator, join of the rest) and Text.JoinWithTrimmed |
| Text.JoinWithTrimmed | vale-docs-linter/vale_docs_checker.py:137 | Trimmed non-empty pieces join into trimmed non-empty text |
| Text.JoinWithCons | vale-docs-linter/vale_docs_checker.py:137 | `sep.join` puts the first piece, the separator, then the join of the others |
| Text.DigitsValue | vale-docs-linter/vale_docs_checker.py:156-157 | `int()` of a run of decimal digits; Text.Decimal proves that every `n` is the value of some non-empty digit run |
| Text.Decimal | vale-docs-linter/vale_docs_checker.py:156-157 | The inverse partner of Text.DigitsValue (the `int()` model): for every `n`, a non-empty digit run whose value is `n` |
| ValeHeader.HeaderCuts | vale-docs-linter/vale_docs_checker.py:126-127 | Where the four groups of the header pattern start and end, when the line matches |
| ValeHeader.MatchHeader | vale-docs-linter/vale_docs_checker.py:126-130 | `location_match.groups()`: on a match the rest group is non-empty, and starts on a non-space character unless it is a single character (the regex can backtrack to a one-space rest); on a stripped line it always starts on a non-space character (ValeHeader.HeaderRestTrimmed) |
| ValeHeader.MatchHeaderSound | vale-docs-linter/vale_docs_checker.py:126-130 | A match is well formed (digits, digits, word characters, non-empty rest), and the line reads `<ws*><line>:<col><ws+><type><ws+><rest>` |
| ValeHeader.HeaderRestTrimmed | vale-docs-linter/vale_docs_checker.py:117-130 | On a stripped line the rest group is trimmed too |
| ValeHeader.MatchHeaderOf | vale-docs-linter/vale_docs_checker.py:126-130 | Completeness: any line laid out as the pattern reads is matched, and the groups are its parts |
| ValeHeader.FirstGap | vale-docs-linter/vale_docs_checker.py:134 | The leftmost match of `\s{2,}`: two whitespace characters, with no whitespace just before |
| ValeHeader.FirstGapNoGap | vale-docs-linter/vale_docs_checker.py:134 | The text before the first match holds no run of two whitespace characters |
| ValeHeader.GapEnd | vale-docs-linter/vale_docs_checker.py:134 | The greedy match of `\s{2,}` takes at least two characters, all whitespace, and stops at the end or at the first non-space character |
| ValeHeader.SplitWide | vale-docs-linter/vale_docs_checker.py:134 | `re.split(r'\s{2,}', rest)` gives at least one piece |
| ValeHeader.SplitWideNoGap | vale-docs-linter/vale_docs_checker.py:134 | No piece holds a run of two or more whitespace characters |
| ValeHeader.SplitWideTrimmed | vale-docs-linter/vale_docs_checker.py:134 | The pieces of trimmed text are non-empty and trimmed |
| ValeHeader.SplitWideJoin | vale-docs-linter/vale_docs_checker.py:134 | Round trip: gap-free trimmed pieces joined by a whitespace run of two or more split back into the same pieces |
| ValeHeader.SplitWideCons | vale-docs-linter/vale_docs_checker.py:134 | One step of the split: the head up to the first wide gap, then the split of what follows the gap |
| ValeParser.OutputLines | vale-docs-linter/vale_docs_checker.py:106 | The stripped output cut into lines with colour codes removed: never empty |
| ValeParser.ResolveFilename | vale-docs-linter/vale_docs_checker.py:108-110 | The given name, unless it is missing or empty and the stripped first line ends in `.md` or `.mdx`; characterized by ParserProperties.ParseOutputFilename |
| ValeParser.StartIndex | vale-docs-linter/vale_docs_checker.py:112-113 | Start after the first line exactly when there is more than one line and the raw first line ends in `.md` or `.mdx`; used by ValeFormat.ReportHead and ValeFormat.ParseSingle |
| ValeParser.Skippable | vale-docs-linter/vale_docs_checker.py:119-122 | A line that is empty or starts with `✖` once stripped; the skip branch of ParserProperties.StepYields |
| ValeParser.StartsWithLocation | vale-docs-linter/vale_docs_checker.py:147 | `re.match(r'^\d+:\d+', line)` on the raw line; characterized by ParserProperties.LocationEndsMessage and ParserProperties.IndentedHeaderAbsorbed |
| ValeParser.IsContinuation | vale-docs-linter/vale_docs_checker.py:145-148 | The lookahead loop condition: non-blank once stripped, no location at the start of the raw line, no `✖` in front; characterized by ParserProperties.ContinuationEndOf |
| ValeParser.ContinuationEnd | vale-docs-linter/vale_docs_checker.py:144-152 | Where the lookahead stops: at the end, or at the first line that is blank, starts with `\d+:\d+` or starts with `✖` |
| ValeParser.ContinuationEndAll | vale-docs-linter/vale_docs_checker.py:145-148 | Every line the lookahead passes over satisfies the loop condition |
| ValeParser.ContinuationLines | vale-docs-linter/vale_docs_checker.py:145-152 | One stripped line for each line the lookahead passes over |
| ValeParser.Absorb | vale-docs-linter/vale_docs_checker.py:149-151 | `full_msg += ' ' + additional_text` over the lookahead lines, skipping lines with nothing left; ParserProperties.AbsorbJoins proves it is the single-space join |
| ValeParser.ParseHeading | vale-docs-linter/vale_docs_checker.py:126-136 | A heading is accepted only with at least two pieces after the split |
| ValeParser.Record | vale-docs-linter/vale_docs_checker.py:154-160 | The record of a header line: the integer location, the severity, the stripped full message and the stripped check name; characterized field by field by ParserProperties.RecordFields |
| ValeParser.StepAt | vale-docs-linter/vale_docs_checker.py:116-170 | One turn of the cursor always moves it forward, and never past the end |
| ValeParser.Scan | vale-docs-linter/vale_docs_checker.py:115-171 | The records the cursor loop collects from a cursor on; ValeParser.ScanLines computes it, and ParserProperties.ScanOrder, ParserProperties.ScanFilename and ParserProperties.ScanLength characterize it |
| ValeParser.ParseOutput | vale-docs-linter/vale_docs_checker.py:86-182 | `parse_vale_output`: the scan of the output lines from the start index with the resolved file name; ValeParser.ParseValeOutput computes it and ValeFormat.ParseReport gives its round trip |
| ValeParser.Lookahead | vale-docs-linter/vale_docs_checker.py:140-152 | The lookahead loop stops where `ContinuationEnd` says. It appends each non-empty continuation, with its leading whitespace removed, after one space |
| ValeParser.ReadStep | vale-docs-linter/vale_docs_checker.py:117-170 | One turn of the loop body computes `StepAt`: the record or none, and the next cursor |
| ValeParser.ScanLines | vale-docs-linter/vale_docs_checker.py:115-171 | The cursor loop collects exactly `Scan`'s records |
| ValeParser.ParseValeOutput | vale-docs-linter/vale_docs_checker.py:86-182 | `parse_vale_output` returns `ParseOutput`: the file name resolved, the first line skipped when it is a file name, then the scan |
| ParserProperties.AbsorbJoins | vale-docs-linter/vale_docs_checker.py:141-152 | Absorbing non-blank continuation lines gives the pieces and those lines joined by single spaces |
| ParserProperties.ContinuationLinesNonBlank | vale-docs-linter/vale_docs_checker.py:146-149 | The lines the lookahead passes over, stripped, are non-empty and trimmed |
| ParserProperties.StepYields | vale-docs-linter/vale_docs_checker.py:119-170 | A turn yields a record if and only if the stripped line is neither blank nor a summary and matches a header with at least two pieces. Otherwise the cursor moves by one |
| ParserProperties.StepNext | vale-docs-linter/vale_docs_checker.py:144-163 | After a record, the cursor moves to where the lookahead stopped (`i = next_idx`) |
| ParserProperties.MessageJoins | vale-docs-linter/vale_docs_checker.py:137-159 | The final message is the message pieces and the continuation lines, joined by single spaces |
| ParserProperties.RecordFields | vale-docs-linter/vale_docs_checker.py:154-160 | Every field of a record, stated from the heading and the continuation lines |
| ParserProperties.HeadingFacts | vale-docs-linter/vale_docs_checker.py:127-136 | A heading holds the groups of the stripped line and its split rest, with at least two pieces, each non-empty and trimmed |
| ParserProperties.StepFilename | vale-docs-linter/vale_docs_checker.py:155 | A record carries the scan's file name |
| ParserProperties.ScanLength | vale-docs-linter/vale_docs_checker.py:115-171 | There are at most as many records as lines left |
| ParserProperties.ScanFilename | vale-docs-linter/vale_docs_checker.py:155 | Every record of a scan carries its file name |
| ParserProperties.ScanOrder | vale-docs-linter/vale_docs_checker.py:115-170 | Records come one per header line, in order. Their header lines strictly increase and lie inside the scanned range |
| ParserProperties.ParseOutputFilename | vale-docs-linter/vale_docs_checker.py:108-110 | Every record carries the given file name. When none is given and the first stripped line names a Markdown file, that name is used |
| ParserProperties.EmptyOutput | vale-docs-linter/vale_docs_checker.py:105-122 | Empty or all-whitespace output yields no records |
| ParserProperties.IndentedHeaderAbsorbed | vale-docs-linter/vale_docs_checker.py:145-148 | An indented line right after a record continues its message, even when it reads like a header, because the location test looks at the raw line |
| ParserProperties.LocationEndsMessage | vale-docs-linter/vale_docs_checker.py:147 | A line that starts with a location ends the message before it |
| ParserProperties.ContinuationEndOf | vale-docs-linter/vale_docs_checker.py:145-152 | The lookahead stops exactly at the first line that does not continue the message |
| ValeFormat.HeaderLineParses | vale-docs-linter/vale_docs_checker.py:126-136 | A finding's header line matches, and its rest splits into the message pieces and the rule |
| ValeFormat.WrappedLines | vale-docs-linter/vale_docs_checker.py:145-152 | A finding's wrapped lines continue its message, and they strip back to their text |
| ValeFormat.LookaheadOf | vale-docs-linter/vale_docs_checker.py:144-152 | After a finding's header the lookahead stops right after its wrapped lines, and reads back exactly those lines |
| ValeFormat.RecordIs | vale-docs-linter/vale_docs_checker.py:154-160 | The record read at a finding's header is the expected one |
| ValeFormat.StepFinding | vale-docs-linter/vale_docs_checker.py:116-164 | At a finding's header the cursor yields the expected record and moves past the wrapped lines |
| ValeFormat.ScanFindings | vale-docs-linter/vale_docs_checker.py:115-170 | Findings laid out one after another yield their expected records, in order |
| ValeFormat.ReportLines | vale-docs-linter/vale_docs_checker.py:106 | The lines read from a report are the report's lines |
| ValeFormat.ScanAtSummary | vale-docs-linter/vale_docs_checker.py:119-122 | A final `✖` summary line adds no record |
| ValeFormat.ReportHead | vale-docs-linter/vale_docs_checker.py:108-113 | A report's file-name line is skipped. When no file name is given, it supplies one |
| ValeFormat.ParseReport | vale-docs-linter/vale_docs_checker.py:86-182 | Round trip: parsing a report gives back every finding as one record, in order. Each record has its location, severity and rule, its message pieces and wrapped lines joined by single spaces, and the right file name |
| ValeFormat.ParseSingle | vale-docs-linter/vale_docs_checker.py:106-170 | Output made of one header line yields its record. If no name is given and that line ends in `.md`, the line is both the file name and a finding |
| ValeFormat.ParseReportExample | vale-docs-linter/vale_docs_checker.py:86-182 | A finding whose message wraps onto a second line gives one record. Its message is the two parts joined by one space, and its file name comes from the report |
| ValeFormat.OneLineExample | vale-docs-linter/vale_docs_checker.py:86-182 | `3:10  error  Some message  RuleName` alone yields one record: line 3, column 10, `error`, `Some message`, `RuleName` |
| ErrorReport.CountOf | vale-docs-linter/vale_docs_checker.py:234 | A group's size is never more than the number of records |
| ErrorReport.GroupCounts | vale-docs-linter/vale_docs_checker.py:234 | `groupby(...).size()`: the sizes sum to the number of records |
| ErrorReport.Bump | vale-docs-linter/vale_docs_checker.py:234 | One record added to the grouping: its group grows by one, or a group with count 1 is added; characterized by ErrorReport.BumpTotal, ErrorReport.BumpOccurrences and ErrorReport.BumpMembers |
| ErrorReport.BumpTotal | vale-docs-linter/vale_docs_checker.py:234 | Counting one more record adds one to the total |
| ErrorReport.BumpOccurrences | vale-docs-linter/vale_docs_checker.py:234 | Counting a record gives its key exactly one group and leaves the other keys alone |
| ErrorReport.BumpMembers | vale-docs-linter/vale_docs_checker.py:234 | Counting a record changes only its key's group, or adds that group with count 1 |
| ErrorReport.GroupCountsCorrect | vale-docs-linter/vale_docs_checker.py:234 | Every group's count is the number of records with its key. Every key of the records has exactly one group, and no other key has any |
| ErrorReport.Insert | vale-docs-linter/vale_docs_checker.py:235 | One group placed before the first group whose count is not larger; characterized by ErrorReport.InsertPerm and ErrorReport.InsertSorted |
| ErrorReport.InsertPerm | vale-docs-linter/vale_docs_checker.py:235 | Inserting a group adds exactly that group |
| ErrorReport.InsertSorted | vale-docs-linter/vale_docs_checker.py:235 | Inserting keeps the counts non-increasing |
| ErrorReport.SortByCount | vale-docs-linter/vale_docs_checker.py:235 | `sort_values('count', ascending=False)`: the counts never increase, and the result is a permutation of the groups |
| ErrorReport.SortTotal | vale-docs-linter/vale_docs_checker.py:235 | Sorting keeps the sum of the counts |
| ErrorReport.SortOccurrences | vale-docs-linter/vale_docs_checker.py:235 | Sorting keeps the number of groups of each key |
| ErrorReport.Report | vale-docs-linter/vale_docs_checker.py:234-239 | The report's counts never increase, and they sum to the total number of records printed last |
| ErrorReport.ReportGroups | vale-docs-linter/vale_docs_checker.py:234-235 | Every group of the report counts the records with its key, and every key of the records has exactly one group |
| ErrorReport.ReportKeysDistinct | vale-docs-linter/vale_docs_checker.py:234 | Two groups of the report never share a key |
| ErrorReport.ReportSize | vale-docs-linter/vale_docs_checker.py:234-235 | There are no more groups than records, and there are none exactly when there are no records |
| ErrorReport.ReportExample | vale-docs-linter/vale_docs_checker.py:234-235 | In three records where the first and the last share a key, that key comes first with count 2, then the other key with count 1 |

## Left out

- Running the command: `subprocess.Popen`, the loop over files, `stdout.strip()` on the results and the exception branch (lines 26-52). This is process I/O; only the escaping and the command line are modelled.
- `collect_files`, `create_file_tree`, argument parsing and the directory check in `main` (lines 54-79, 184-204). These are filesystem traversal and console output.
- The driver loop in `main` (lines 213-231) is left out because it interleaves printing with data flow. It prints each output and parses it only when it contains `warning` or `error`, then concatenates the tables. `ErrorReport` starts from the concatenated records.
- The printing of tables (`to_string`) and of coloured messages by `rich`.
- The `except` branch of `parse_vale_output` (lines 166-168). `int` is only applied to digit runs, so nothing inside the `try` can raise as long as each location number has at most 4300 digits, the default limit of `sys.get_int_max_str_digits()` since Python 3.11 (and 3.10.7).
- ValeParser.Record: beyond that limit the source behaves differently, and the model does not follow it. `filenames.append` (line 155) has already run when `int(line_num)` or `int(col_num)` (lines 156-157) raises `ValueError`. The `except` at lines 166-168 swallows the error and leaves the six lists of different lengths, so `pd.DataFrame` at line 173 raises and `parse_vale_output` fails. The model, through Text.DigitsValue, returns a record for a location number of any length.
- Text.IsSpace: whitespace and `\d`/`\w` are the ASCII classes. Python's `str.strip` and `re` also treat other Unicode whitespace, digits and letters as members. Unicode case and normalisation are not modelled either.
- Ansi.StripAnsi: the second alternative of the pattern, `\x1b\[\d+m`, is not modelled separately. On ASCII digits every text it matches is also matched by the first alternative; it differs only for non-ASCII Unicode digits.
- Text.DigitsValue: `int()` is modelled on ASCII digit runs only. It yields 0 for a non-digit character, a case the parser never reaches.
- ErrorReport.SortByCount: pandas sorts with an unstable sort, and `groupby` first orders groups by key. The model promises only non-increasing counts and a permutation; the order of groups with equal counts is left open, as it is in the source.
- The DataFrame's columns and dtypes: the records are a sequence of `Issue` values, and the grouped table a sequence of `Group` values.
