# satch command-line front end, modelled in Dafny

The `satch` SAT solver ships a stand-alone driver, `main.c`. This project
models the deterministic logic of that driver and proves properties of
the model:

- **The DIMACS CNF reader and parser** (`next`, `parse`).
  - An input file is a `seq<char>` in which each element stands for one
    byte that `getc` returns (a value from 0 to 255); the end of the
    sequence is EOF.
  - `next` squeezes `\r\n` into `\n`, rejects any other carriage return,
    and counts lines and bytes (module `Reader`).
  - `parse` reads:
    - leading `c` comment lines;
    - the header `p cnf <V> <M>`, with `V` checked against `INT_MAX` and
      `M` against `SIZE_MAX` = 2^64-1 digit by digit;
    - a body of signed literals and comments.
  - Every literal, each terminating `0` included, is handed to
    `satch_add`. The model appends it to a sequence instead (module
    `Dimacs`).
  - Every `parse_error` is an `Err(ParseError(line, kind))`, with one
    `ErrorKind` per message of the source (module `DimacsErrors`).
  - Lemmas about concrete texts are in `DimacsText`.
  - The round trip is in `DimacsRoundTrip`: a file written out from a
    header and literals parses back to exactly those literals.
  - `DimacsLayout` shows that the parser skips comment lines, runs of
    blanks and comments after literals wherever the code allows them.
- **The witness printer** (`print_value`, `flush_printed_values`, and the
  loop in `main` that prints the satisfying assignment). It collects
  ` %d` renderings in an 80-byte line buffer and writes `v` lines of at
  most 78 characters (module `Witness`).
- **`has_suffix`** and the choice of decompressor that depends on it
  (module `Suffix`).
- **The option loop of `main`**: a left-to-right fold over the
  arguments, then the two checks on option combinations (module
  `Options`).
- **Shared definitions:**
  - `Limits`: `INT_MAX`, `INT_MIN`, `SIZE_MAX`.
  - `Results`: the `Result`/`Option` types.
  - `Digits`: decimal digits, and the `%d` rendering `Render`.

## Model

| member | source | states |
|---|---|---|
| Reader.Next | main.c:184-200 | `\r\n` is delivered as one `\n`. A `\r` followed by anything else, or by EOF, is exactly the "expected new line" error, reported on the current line. The line number grows by one exactly when `\n` is delivered. The byte counter grows by the number of bytes consumed, the squeezed `\r` included. EOF is delivered only at the end of the input and consumes nothing. |
| Reader.NewlinesPrefix | main.c:195-196 | The line counter never decreases as reading advances. |
| Reader.ValidLine | main.c:80 | The line number of any position reached is a line of the input. |
| Dimacs.Fail | main.c:131-141 | A parse error carries the current line number, which is a line of the input. |
| Dimacs.SkipComment | main.c:225-227 | A comment ends right after its newline, one line further on. EOF inside it is the given error. |
| Dimacs.CommentNeedsNewline | main.c:225-227 | A comment that reaches EOF without a newline is always an error. |
| Dimacs.LeadingComments | main.c:223-228 | After the leading comments, the next character is no `c`. The character returned is the one just before the cursor. |
| Dimacs.Expect | main.c:231-240 | A required character other than a newline or carriage return is accepted exactly when it is the next character of the input. Then exactly that character is consumed. Any failure is the given error, or the stray `\r` error. |
| Dimacs.SkipBlanks | main.c:241-242 | Skipping stops at the first character that is neither a space nor a tab. A character returned is the one just before the cursor. |
| Dimacs.ScanDigits | main.c:246-258 | An accepted digit run has a value at most `max`. Reading goes on exactly with the first token after the maximal run of digits. |
| Dimacs.HeaderKeyword | main.c:229-240 | An accepted keyword is the six characters `p cnf ` just before the position where the header goes on. Each wrong character is the error `DimacsLayout.KeywordMismatch` states. |
| Dimacs.HeaderVariables | main.c:241-260 | An accepted maximum variable is at most `INT_MAX`. The character that ends its digits is a space, not a tab, and a digit comes just before it. A missing `V` is the error `DimacsLayout.VariablesNeedDigit` states. |
| Dimacs.HeaderClauses | main.c:261-287 | An accepted clause count is at most `SIZE_MAX`. The header line ends in a newline, which is the character just before the cursor returned. A missing `M` is the error `DimacsLayout.ClausesNeedDigit` states. |
| Dimacs.ParseHeader | main.c:222-287 | An accepted header has `V <= INT_MAX` and `M <= SIZE_MAX`. |
| Dimacs.ReadSign | main.c:313-323 | The sign is -1 exactly when the literal starts with `-`. A literal start is accepted exactly when it is a digit, or a `-` directly followed by a digit. The first digit is then the character read, or the one after the `-`. A start that is neither a digit nor `-` is the "expected number" error on its line. A `-` without a digit is the "expected digit after '-'" error, or the stray `\r` error. |
| Dimacs.ReadLiteral | main.c:313-352 | An accepted literal is within `-INT_MAX..INT_MAX`, so never `INT_MIN`. Its absolute value is at most the maximum variable. It is followed by a blank, tab, newline or `c`. Reading goes on exactly after the maximal digit run that follows the optional `-`. No literal is accepted once all specified clauses are parsed. |
| Dimacs.Finish | main.c:372-382 | At EOF the file is accepted exactly when the last literal is 0 and the zeros equal `M`. A non-zero last literal is reported first. One missing clause and several missing clauses are distinguished, the latter with the count. |
| Dimacs.ParseBodySound | main.c:297-382 | An accepted body: keeps the header's numbers; extends the literals added so far; holds exactly `M` zeros; has every literal within `V`; ends in a 0; has read every byte. |
| Dimacs.ParseSound | main.c:211-382 | An accepted file satisfies the header bounds. It holds exactly `M` zeros. Every literal is a non-`INT_MIN` `int` within `V`. It ends in a zero and all its bytes were read. |
| DimacsLayout.SkipCommentOk | main.c:225-227 | A comment's text is consumed up to and including its newline, and reading resumes right after it. The text may hold anything but a newline, and a `\r` only as the first half of a final `\r\n`. |
| DimacsLayout.LeadingCommentsOk | main.c:223-228 | Any number of comment lines before the header are all skipped. The step returned reads the first character after them. |
| DimacsLayout.KeywordAfterComments | main.c:222-240 | `p cnf ` after any number of comment lines is accepted. The header goes on right after its space. |
| DimacsLayout.NeitherPNorC | main.c:222-230 | After the comment lines, end-of-file or a character other than `p` and `c` is the "expected 'p' or 'c'" error, on the line where it was read. |
| DimacsLayout.KeywordRestMiss | main.c:231-240 | After the `p`, when the first i characters of ` cnf ` are there and the next is not, or end-of-file comes instead, the error names that character: space after `p`, `c`, `n`, `f`, space after `p cnf`, in this order. |
| DimacsLayout.KeywordMismatch | main.c:222-240 | The same for a whole file: comment lines, `p`, and a broken keyword make the header fail with the error for the first missing character. |
| DimacsLayout.SkipBlanksIs | main.c:241-242 | Skipping blanks gives exactly the token at the end of the longest run of spaces and tabs. So every character skipped is a blank, and the token returned is not. |
| DimacsLayout.SkipBlanksRun | main.c:241-242 | A run of spaces and tabs in front of the reader makes no difference to what skipping returns. |
| DimacsLayout.VariablesAfterBlanks | main.c:241-244 | Any run of spaces and tabs between `p cnf ` and the maximum variable is skipped. |
| DimacsLayout.ClausesAfterBlanks | main.c:261-264 | Any run of spaces and tabs between the maximum variable's space and the clause count is skipped. |
| DimacsLayout.ClausesBeforeNewline | main.c:265-287 | A clause count that fits, followed by any run of spaces and tabs and then the newline, is accepted. The body starts after the newline. |
| DimacsLayout.HeaderLineParses | main.c:222-287 | A header with comment lines before it, and runs of blanks wherever the parser skips them, is read as `(V, M)` when both fit. The body starts after its newline. |
| DimacsLayout.VariablesNeedDigit | main.c:241-244 | After `p cnf ` and any blanks, end-of-file or a non-digit is the "expected digit after 'p cnf '" error. So an accepted header has the digits of `V`. |
| DimacsLayout.ClausesNeedDigit | main.c:259-264 | After the maximum variable, its space and any blanks, end-of-file or a non-digit (a newline included) is the "expected digit after 'p cnf V '" error. So an accepted header has the digits of `M`. |
| DimacsLayout.VariablesNeedSpace | main.c:241-260 | A maximum variable followed by a tab, by end-of-file, or by any non-digit other than a space is the "expected space after" error for that value. |
| DimacsLayout.HeaderNeedsNewline | main.c:261-287 | A clause count followed, after any blanks, by end-of-file or by a character other than a newline is the "expected new line after" error for both numbers. This includes a digit after at least one blank. |
| DimacsLayout.SpacingInBody | main.c:299-301 | Spaces, tabs and newlines between literals are skipped without changing the body's outcome. |
| DimacsLayout.CommentInBody | main.c:304-311 | A comment line between literals is skipped, with nothing added. |
| DimacsLayout.CommentAfterLiteral | main.c:346-369 | A literal directly followed by `c`, as in `1c comment`, is added. Parsing goes on after the comment's newline. |
| DimacsText.GuardsExact | main.c:251-257 | The two overflow guards together fire exactly when `acc * 10 + digit` would exceed the bound: they never reject a representable value and never let an unrepresentable one through. Once the first guard passes, `acc * 10` itself is within the bound. |
| DimacsText.ScanRunZero | main.c:248-250 | A leading 0 followed by another digit is the "invalid digit after '0'" error. |
| DimacsText.ScanRunWithin | main.c:246-258 | A digit run whose value fits the bound is read to its end, with the decimal value of its digits. |
| DimacsText.ScanRunOver | main.c:246-258 | A digit run whose value exceeds the bound is an overflow error. |
| DimacsText.ScanRun | main.c:246-258 | A run that starts with 0 and goes on is the "invalid digit after '0'" error. Otherwise the run is an overflow error, on its own line, exactly when its value exceeds the bound. If it fits, the value is returned together with the character after the run. |
| DimacsText.ScanDigitsValue | main.c:329-341 | The value read is the decimal value of the maximal digit run. |
| DimacsText.LiteralInBody | main.c:313-369 | While clauses are still expected, a failure to read a literal is the loop's failure. A literal that is read is added, and the loop goes on after it, at a comment when a `c` follows. |
| DimacsText.ItemStep | main.c:313-369 | A literal rendered at a position is added, and the loop goes on after its separator. A `c` separator starts a comment without reading an extra character. |
| DimacsText.LiteralOutOfRange | main.c:350-352 | A literal beyond the maximum variable is rejected whatever its sign. The error is reported on the line after its separator. |
| DimacsText.MoreClausesAtLiteral | main.c:325-327 | Once `M` zeros were read, the start of any further literal is the "more clauses than specified" error, not only a further zero. |
| DimacsText.NegativeZero | main.c:343-344 | `-0` is accepted as the literal 0 and so terminates a clause. |
| DimacsText.BadCharAfterLiteral | main.c:313-347 | While clauses are still expected, a literal in `int` range followed by end-of-file, or by a character that is no digit and none of blank, tab, newline, `c`, is the "unexpected character after" error, on the line where that character was read. The check comes before the range check. |
| DimacsText.MinusWithoutDigit | main.c:315-320 | A `-` followed by end-of-file or by a non-digit is the "expected digit after '-'" error, whether or not clauses are still expected. |
| DimacsText.NotANumber | main.c:313-323 | A character that the body loop does not skip and that is neither a digit nor `-` is the "expected number" error on its line. |
| DimacsRoundTrip.HeaderOfText | main.c:229-287 | The text `p cnf V M\n` is read back as `(V, M)` when both fit. `V > INT_MAX` and `M > SIZE_MAX` are overflow errors on line 1. |
| DimacsRoundTrip.ItemsStep | main.c:297-362 | A run of laid-out literals, none starting after the last clause, is added literal by literal in order. |
| DimacsRoundTrip.ItemsOpen | main.c:325-327 | If the body is accepted, no literal started after the specified clauses were complete. |
| DimacsRoundTrip.OpenOfZeros | main.c:325-327 | Literals whose zeros exactly complete the remaining clauses, ending in a zero, never start after the last clause. |
| DimacsRoundTrip.BodyOfLayout | main.c:297-382 | A laid-out body is accepted exactly when its zeros equal `M` and its last literal is 0. It then yields exactly its literals. |
| DimacsRoundTrip.EmitParses | main.c:211-382 | Round trip: a header plus literals written in the canonical layout is accepted exactly when the zeros equal `M` and the last literal is 0. It then parses back to exactly `(V, M, literals)`, having read every byte. |
| Digits.ValueOfDecimal | main.c:245-257 | Reading the decimal digits of `n` back gives `n`. |
| Digits.RenderSign | main.c:426 | `%d` starts with `-` exactly for negative values. |
| Digits.RenderLength | main.c:425-427 | Any `int` renders in at most 11 characters, so ` %d` fits the 32-byte buffer and the 77-character line. |
| Witness.Flush | main.c:409-420 | After a flush the buffer is empty. |
| Witness.FlushText | main.c:409-420 | Flushing loses no character: the written lines plus the buffer are unchanged. |
| Witness.FlushKeeps | main.c:409-420 | Flushing keeps every line a `v` line of at most 78 characters. It writes a line exactly when the buffer is not empty, so an empty buffer writes nothing. |
| Witness.PrintValue | main.c:422-432 | After every `print_value` the buffer holds at most 77 characters. |
| Witness.PrintValueText | main.c:422-432 | `print_value` adds exactly ` %d` of its value to the text printed so far. |
| Witness.PrintValueKeeps | main.c:422-432 | `print_value` keeps the buffer bound and keeps all lines good. |
| Witness.PrintValueFlushes | main.c:428-429 | A line is written exactly when the next rendering would not fit the 77 characters, and then only one. |
| Witness.PrintAllText | main.c:625-626 | Printing a run of values adds their renderings in call order. |
| Witness.PrintAllKeeps | main.c:625-626 | Printing a run of values keeps the line invariant. |
| Witness.WitnessLines | main.c:625-628 | The whole witness consists of `v` lines of at most 78 characters. The buffer is left empty and at least one line is written. The lines without their `v` spell ` %d` of every value, then ` 0`. |
| Suffix.SameIsEqual | main.c:462 | The `strcmp` comparison is equality of strings. |
| Suffix.HasSuffixIff | main.c:458-463 | `has_suffix(str, suffix)` holds exactly when `suffix` is no longer than `str` and equals its last `strlen(suffix)` characters. |
| Suffix.SuffixOfAppend | main.c:458-463 | A string ends with what was appended last, and with the empty string. |
| Suffix.OpenerOf | main.c:604-611 | A file is opened directly exactly when its path ends in none of `.gz`, `.bz2`, `.xz`. |
| Suffix.OpenerOfExtension | main.c:604-611 | A `.gz`, `.bz2` or `.xz` path is opened through gzip, bzip2 or xz respectively. |
| Options.Step | main.c:561-583 | `-n`/`--no-witness` turns the witness off, `-q`/`--quiet` turns quiet mode on, and `-v`/`--verbose` adds one to the verbose level unless it is `INT_MAX`. `-l`/`--log` turns logging on with logging support, and is exactly the "no logging support" error without it. Usage is asked for exactly by `-h`, the version exactly by `--version`. A dash-prefixed argument other than these ten strings is exactly the invalid-option error. Any other argument becomes the path, or, when one is already set, is exactly the multiple-files error naming both paths. |
| Options.Check | main.c:585-590 | A configuration that passes the final checks is not changed by them. It is rejected exactly when `-q` meets `-l` (with logging support) or `-q` meets a verbose level above 1. The `-q`/`-l` error is reported first, so `-q` with `-v` is that error only without `-l`. |
| Options.FoldAccepts | main.c:559-584 | The loop accepts exactly the argument lists of known options that hold at most one path. |
| Options.FoldConfig | main.c:559-584 | After the loop: `printWitness` is off iff some `-n` was given; `quiet` is on iff some `-q` was; logging is on iff some `-l` was; the verbose level rose once per `-v`, saturating at `INT_MAX`; the path is the first path given. |
| Options.FoldAppend | main.c:559-584 | The loop reads left to right: splitting the arguments splits the fold. An argument that stops the loop makes the later ones irrelevant. |
| Options.ExitsAtOnce | main.c:562-565 | `-h` and `--version` end processing whatever follows them. |
| Options.SecondFile | main.c:580-581 | A second path is rejected, naming the first path and the second. |
| Options.LogWithoutSupport | main.c:559-574 | Without logging support, `-l` or `--log` after accepted arguments rejects the command line, whatever follows. |
| Options.UnknownOption | main.c:578-579 | Any other dash-prefixed argument is rejected as an invalid option. |
| Options.ArgumentsAccepted | main.c:559-590 | The command line is accepted exactly when: all arguments are known; there is at most one path; `-q` is not combined with `-v`; and, with logging support, `-q` is not combined with `-l`. The verbose level is then `1 + #-v`, saturated, and the path is the first one. |
| Options.VerboseSaturates | main.c:570-571 | `-v` saturates: the level never exceeds `INT_MAX`, and below that each `-v` adds one. |

## Left out

- **Signal handling** (main.c:484-548) is not modelled. It concerns asynchronous delivery and operating-system handler state.
- **File access and opening** is not modelled: `file_readable`, `open_pipe`, `fopen`, `fclose`, `pclose` (main.c:390-394, 443-478, 600-613). Only the extension dispatch is modelled, as `Suffix.OpenerOf`. A missing path, which makes the driver read `<stdin>`, is `Config.path == None`.
- **The solver library** is not part of this model: `satch_init`, `satch_solve`, statistics, profiling, logging control.
  - `satch_add` is modelled as appending to `Cnf.lits`.
  - The values `satch_val` returns are the input sequence of `Witness.PrintWitness`.
  - The `s SATISFIABLE` / `s UNSATISFIABLE` lines, and the test of `printWitness` that guards the witness, are not modelled.
- **Floating-point reporting** of the parse time and megabytes (main.c:384-388, 397-398) is not modelled.
- **Output text** is not modelled: `message`, `banner`, the usage text, the version text, and the wording of the error messages. Errors are modelled by the `ErrorKind` and `OptionError` constructors, not by text. The process exit codes are left out.
- **The `NDEBUG` build flag** is the parameter `withLog` of `Options`. The zero-terminator byte that `flush_printed_values` writes is a C string detail and is not modelled.
- **EOF directly after a literal's digits.** The source rejects it as an "unexpected character after" error, because EOF is none of blank, tab, newline or `c` (main.c:346). So a file whose last literal is followed by nothing is rejected, and the model does the same.
- **Reader.Next**: the byte counter is an unbounded `nat` rather than a `uint64_t`. Its wrap-around after 2^64 bytes is not modelled.
- **DimacsRoundTrip.BodyOfLayout**: its layouts put exactly one space, tab or newline after each literal, and have no comments. Runs of blanks, comment lines and comments after a literal are covered step by step, by `DimacsLayout.SpacingInBody`, `DimacsLayout.CommentInBody` and `DimacsLayout.CommentAfterLiteral`. No single whole-file statement covers them.
- **DimacsLayout.SkipCommentOk**: covers comment text whose only `\r` ends the line as `\r\n`. A `\r` elsewhere in a comment is the "expected new line" error of `Reader.Next`, which `Dimacs.SkipComment` passes on.
- **Dimacs.ParseBody**: its own contract states only that errors carry a line of the input. Its guarantees are stated by `Dimacs.ParseBodySound` and `DimacsRoundTrip.BodyOfLayout`.
- **Witness.PrintWitness**: requires every value to be an `int`. `satch_val` returns an `int`, so the source cannot pass anything else.
- **DimacsText.BadCharAfterLiteral**: does not cover a `\r` after the digits. There `Reader.Next` decides first: `\r\n` is read as a newline, and any other `\r` is the "expected new line" error.
- **DimacsText.MinusWithoutDigit**: does not cover a `\r` after the `-`, for the same reason.
- **DimacsText.NotANumber**: does not cover a `\r` at the literal's start, for the same reason.
- **DimacsLayout.VariablesNeedSpace**: does not cover a `\r` after the digits, for the same reason.
- **DimacsLayout.VariablesNeedDigit**: does not cover a `\r` where the digit belongs, for the same reason.
- **DimacsLayout.ClausesNeedDigit**: does not cover a `\r` where the digit belongs, for the same reason.
- **DimacsLayout.NeitherPNorC**: does not cover a `\r` where the `p` belongs, for the same reason.
- **DimacsLayout.KeywordRestMiss**: does not cover a `\r` at the character missing, for the same reason.
- **DimacsLayout.KeywordMismatch**: does not cover a `\r` at the character missing, for the same reason.
- **DimacsLayout.HeaderNeedsNewline**: does not cover a `\r` at the decisive position, for the same reason.
