# memory_usage, modelled in Dafny

`memory_usage <process> [prefix]` lists the running processes whose name
contains `<process>`. For each one it shows the pid, the name, the resident
memory and the virtual memory in a box-drawn table. The memory figures are
rendered by the `mem` crate's `format`, with a decimal or a binary prefix
as chosen on the command line. The whole
program is `src/main.rs`, and this project models its logic:

- `args.dfy` (module `Args`) covers `read_env`: the argument count checks,
  the optional prefix matched case-insensitively, and the usage errors that
  end the program.
- `selection.dfy` (module `Selection`) covers the `filter_map` in `main`.
  Names that are not valid Unicode are dropped with a warning. A record is
  kept when `find` locates the target in its name, and the re-check with
  `contains` follows. Each kept record becomes a `Process` row whose sort key
  is the byte offset of the first match.
- `sorting.dfy` (module `Sorting`) covers `sort_unstable_by` on the match
  index. It is an in-place sort of an array, proved to give a sorted
  permutation of its input.
- `layout.dfy` (module `Layout`) covers `display`. A fold computes the column
  widths, three rules are drawn with box glyphs, and the header and body
  lines are centred the way `{:^w$}` centres. `Display` emits the lines one
  at a time, as the `for_each` does.
- `pipeline.dfy` (module `Pipeline`) covers `main` as a whole. It maps an
  argument list and a process snapshot to what the program writes to
  standard output, what it writes to standard error, and its exit status.
- `text.dfy` (module `Text`) holds what the program takes from Rust's
  strings: the UTF-8 byte length returned by `len`, `find`, `contains`,
  `repeat`, lower-casing, and the decimal rendering of a pid.
  `wrappers.dfy` holds `Option` and `Result`.

Strings are sequences of Unicode scalar values. `str::len` counts bytes, so
it is modelled as the UTF-8 byte length `ByteLen`. `{:^w$}` pads by
character count, so `Center` pads by `|s|`. Because every text has at least
as many bytes as characters, every cell fits its column. As a result, every
printed line has the same number of characters and its separators sit at
the same positions.

Points where the code behaves in a way a reader might not expect:

- Process enumeration happens before `read_env` (src/main.rs:143-148). A
  usage error therefore comes after the snapshot was taken. In the model the
  snapshot is an input, so this has no visible effect.
- The sort is unstable (src/main.rs:177), so rows with equal match offsets
  may appear in either order. `Sorting.SortedKeysUnique` shows that the
  sequence of keys is still determined, and `Pipeline.Run` states its
  output up to that freedom.
- The sort key counts bytes (src/main.rs:162), and `find` returns a byte
  offset. Within one name this orders matches as their character
  positions do (`Text.FirstMatchByteOffset`). Across names it need not: a
  match after multi-byte characters can sort after an ASCII-prefixed match
  at a later character position (`Selection.ByteKeyAcrossNames`).
- Column widths count bytes, not characters (src/main.rs:78-81). With a
  non-ASCII name, a column is wider than it needs to be, but the table stays
  aligned.
- With an empty argument list (argc = 0), `argv.get(1).unwrap()` panics
  (src/main.rs:46). This is modelled as `Args.EnvError.MissingArgument`
  with exit status 101.

## Model

| member | source | states |
|---|---|---|
| `Args.ReadEnv` | src/main.rs:32-59 | Succeeds iff there are one or two arguments after the program name and any second argument spells `decimal` or `binary` in any letter case. The target is the first argument. With no prefix argument the prefix is `Decimal`. argc = 1 gives "expected at least one argument", argc > 3 gives "too much arguments", argc = 0 gives the failed `unwrap`, and an unknown prefix is reported as given. |
| `Args.ParsePrefix` | src/main.rs:47-57 | Yields `Decimal` iff the text spells "decimal" ignoring case, `Binary` iff it spells "binary", and nothing otherwise. |
| `Args.LowerMatchesWord` | src/main.rs:49-51 | Lower-casing a text gives a lower-case word exactly when the text spells that word in any mixture of cases. |
| `Args.ExitCode` | src/main.rs:36-56 | Every usage error exits with a non-zero status: 1 for the `process::exit(1)` cases, and the panic status 101 for the failed `unwrap`. |
| `Args.ReadEnvExamples` | src/main.rs:25-57 | The usage text's example invocations are accepted. A mixed-case `BiNaRy` selects `Binary`. `hex` is an invalid prefix, and a missing target is an error. |
| `Text.FindFrom` | src/main.rs:162 | The result is the first occurrence at or after the starting offset, and None means there is no occurrence from there on. |
| `Text.Find` | src/main.rs:162-164 | `find` succeeds iff `contains` (`Text.Contains`, some occurrence exists) holds, and it returns an occurrence with no earlier one. |
| `Text.FindEmpty` | src/main.rs:162 | An empty target is found at offset 0 of every name. |
| `Text.CharsAtMostBytes` | src/main.rs:78-81 | Of `ByteLen`, the model of `str::len`: a text never has more characters than UTF-8 bytes, and the two are equal exactly for ASCII text. |
| `Text.ByteLenAppend` | src/main.rs:78-81 | Byte length adds up over concatenation. |
| `Text.ByteOffsetMonotone` | src/main.rs:162 | Within one name, a later character offset has a strictly larger byte offset. |
| `Text.FirstMatchByteOffset` | src/main.rs:162 | The byte offset of the character match `Find` returns is strictly smaller than the byte offset of any other occurrence, so it is where Rust's byte search stops first. |
| `Text.Repeat` | src/main.rs:111-128 | `"\u{2500}".repeat(n)` gives exactly n characters, all of them that glyph. |
| `Text.ToLowerAscii` | src/main.rs:49 | Lower-casing keeps the length and lower-cases each ASCII capital letter in place. |
| `Text.NatToStringValue` | src/main.rs:169 | The decimal text of a pid reads back as that pid. |
| `Text.NatToString` | src/main.rs:169 | A pid renders as a non-empty string of digits with no leading zero. |
| `Selection.Convert` | src/main.rs:153-175 | A record yields a row iff its name decodes and contains the target. The row carries the pid in decimal, the name, the byte offset of the first match and both formatted memory figures. |
| `Selection.ContainsGuardRedundant` | src/main.rs:162-166 | Whenever `find` returns an index, `contains` holds, so the re-check never rejects a record. |
| `Selection.Select` | src/main.rs:150-176 | Soundness: every row comes from a snapshot record whose name decodes and contains the target, and it describes that record. |
| `Selection.SelectComplete` | src/main.rs:150-176 | Completeness: every record whose name decodes and contains the target yields a row describing it. |
| `Selection.SelectAppend` | src/main.rs:150-176 | Selection keeps snapshot order: selecting from two concatenated parts gives the two selections concatenated. |
| `Selection.Decodable` | src/main.rs:154-160 | Exactly the records whose names decode. |
| `Selection.SelectIgnoresUndecodable` | src/main.rs:154-160 | Records with undecodable names never reach the output, and removing them changes nothing else. |
| `Selection.SelectEmptyTarget` | src/main.rs:162 | An empty target selects every decodable record, each with match index 0. |
| `Selection.DecodeFailures` | src/main.rs:154-160 | Exactly the pids of the records whose names do not decode get a warning, and with the decodable records they account for the whole snapshot. |
| `Selection.ByteKeyAcrossNames` | src/main.rs:162 | A name with two two-byte characters before a match at character 3 gets key 5. A name with a match at character 4 after ASCII letters gets key 4, so it sorts first. |
| `Selection.BashScenario` | src/main.rs:150-176 | Filtering "bash" over "bash" and "rebash-helper" keeps both, in snapshot order, with match offsets 0 and 2. |
| `Sorting.MinMatchFrom` | src/main.rs:177 | Finds a row with the smallest match index in the unsorted suffix. |
| `Sorting.Swap` | src/main.rs:177 | Exchanges two rows and leaves the others and the multiset of rows unchanged. |
| `Sorting.SortByMatchIndex` | src/main.rs:177 | After the sort the rows are a permutation of the rows before it, and their match indices never decrease. |
| `Sorting.SortedKeysUnique` | src/main.rs:177 | Any two sorted permutations of the same rows have the same match index at every position, so the unstable sort leaves only ties unordered. |
| `Layout.Widen` | src/main.rs:91-99 | One fold step: each new width covers both the old width and the row's padded cell, and equals one of them, so it is their maximum. |
| `Layout.FoldWidthsIsMax` | src/main.rs:74-100 | The fold's result is at least the seed and at least every cell's length plus padding, and it equals the seed or one of them. |
| `Layout.CellSizesIsMax` | src/main.rs:68-100 | In `CellSizes`, each column width is the larger of (label length + 2) and (longest cell length + 2). It is at least each of these and equal to one of them. |
| `Layout.LabelWidthsValue` | src/main.rs:68-90 | The fold starts from widths 5, 6, 8 and 16. |
| `Layout.Center` | src/main.rs:102-105 | Centring pads a text to the column width and never truncates one that is wider. |
| `Layout.CenterIsCentered` | src/main.rs:102-105 | The padding is spaces, with `floor(pad/2)` on the left and the rest, equal or one more, on the right. |
| `Layout.FramedShape` | src/main.rs:109-129 | A framed line is as long as its texts plus five separators, with the separators at the joint positions and each text at its column offset. |
| `Layout.RuleShape` | src/main.rs:109-129 | Each rule has the left glyph, three tees and the right glyph at the joint positions, with each column's width in horizontal glyphs. So top, middle and bottom rules all have sum(widths) + 5 characters. |
| `Layout.BarsShape` | src/main.rs:109-129 | `TopBar`, `MiddleBar` and `BottomBar` are each as wide as every other line. Each has its own corners (┌ ┐, ├ ┤, └ ┘) at both ends and its own tee (┬, ┼, ┴) at the three inner joints. |
| `Layout.RowLineShape` | src/main.rs:133-138 | A `RowLine` whose cells fit is as long as the rules and has vertical bars at the joint positions. Each cell appears centred in exactly its column's width. |
| `Layout.CellsFit` | src/main.rs:74-105 | Every label and every cell has at least two characters of room in its column, so centring never meets a text wider than the column. |
| `Layout.AllFit` | src/main.rs:74-105 | The header labels and every row's cells fit the computed widths. |
| `Layout.TextLinesAligned` | src/main.rs:102-105 | The `Header` line and every body line are aligned with the rules. |
| `Layout.TableOrder` | src/main.rs:131-139 | `Table` gives, for N rows, N + 4 printed lines: top rule, header, middle rule, the rows in the order given, bottom rule. |
| `Layout.TableRectangular` | src/main.rs:102-139 | Every printed line of the table has the same length, sum(widths) + 5. The header and every body line have their vertical bars where the rules have their joints. |
| `Layout.EmptyTable` | src/main.rs:63-66 | With no rows the output is the four-line frame, 40 characters wide, with widths 5, 6, 8 and 16. |
| `Layout.Display` | src/main.rs:62-140 | The lines emitted one at a time are exactly the table: N + 4 printed lines of equal length. |
| `Pipeline.Warnings` | src/main.rs:154-160 | There is one warning per record whose name does not decode, and a diagnostic is a warning iff it names the pid of such a record. |
| `Pipeline.Run` | src/main.rs:142-180 | A usage error prints nothing on standard output, reports the error and exits non-zero. Otherwise the program exits 0 and prints the warnings and a table of N + 4 lines. That table renders the selected rows in an order that is a sorted permutation of them. |

## Left out

- Process enumeration through `sysinfo` (src/main.rs:143-146) is an
  operating-system query. The snapshot is an input sequence of records
  instead. Its order stands for the hash-map iteration order, which the
  program does not control.
- `mem::format` (src/main.rs:172-173) lives in a crate that is not part of
  this model. It is a function parameter (`Selection.Formatter`), and
  nothing is assumed about its units or rounding.
- The rendering of a pid by `sysinfo`'s `Display` is taken to be plain
  decimal (`Text.NatToString`).
- `std::env::args`, `println!`, `eprintln!` and `process::exit` are I/O.
  They become the argument list, the returned lines, the `Diagnostic` values
  and the exit status of `Pipeline.Output`. The text of the usage message
  and of the panic message is not modelled.
- Decoding an `OsStr` as UTF-8 (src/main.rs:154) is represented by an
  optional name.
- `Text.ToLowerAscii`: `to_lowercase` (src/main.rs:49) is Unicode
  lower-casing, and the model folds only ASCII capital letters.
- The `u64` cast of the match index and the `usize` width arithmetic are
  unbounded naturals here, since no name or cell comes near those limits.
- A line of the model is one printed line, as it would be without control
  characters in names. A process name holding a
  control character such as `'\n'` or `'\r'` is copied into its cell as is
  (src/main.rs:134-136), which splits or overwrites the line on the
  terminal. That effect is not modelled, so the line count and alignment
  stated for the table hold for the strings printed, not for what a
  terminal shows.
- `std::env::args()` (src/main.rs:32) panics when an argument is not valid
  Unicode. The argument list is a sequence of strings here, so that panic
  is outside the model, and `Args.ExitCode` covers only the usage errors
  of `read_env`.
- How wide a character is on a terminal (wide or combining characters) is
  not modelled. Alignment is stated in characters, the unit `{:^w$}` pads by.
