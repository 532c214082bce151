# pdf-to-text: a Dafny model of `Spatie\PdfToText\Pdf`

The PHP class `Pdf` wraps two command-line tools: `pdftotext`, which
extracts text, and `ocrmypdf`, which adds a text layer to a PDF in place.
An object holds the tool paths, a timeout, the target file and two option
lists, one for extraction and one for scanning. Fluent setters change these
fields. `text()` and `scan()` each build one argument vector and start one
process. They check its exit status and either return or throw. The static
helper `getText` does the whole sequence in one call.

The model covers the following:

- **PHP string built-ins** (`php_strings.dfy`, module `PhpStrings`). This
  covers `trim` with a character list and `explode(' ', $s, 2)`.
  `trim` and the search inside `explode` have characterising contracts, and
  `trim` has a reference description as a lemma. `explode` is described by
  two round-trip lemmas with `implode`, which the class itself never calls.
- **Option normalisation** (`options.dfy`, module `PdfOptions`). This is
  `parseOptions` written as in the source: a mapper closure (trim, dash
  rule, split at the first space), `array_map`, and `array_reduce` with an
  `array_merge` reducer. It is proved equal to the in-order concatenation
  of the per-option token lists. Two consequences are proved: parsing two
  batches equals parsing each and appending, and each option yields one or
  two tokens.
- **The process boundary** (`process.dfy`, module `Process`). An
  invocation is a command vector plus a timeout. A completed process is an
  exit code plus standard output and error output. "Successful" means exit
  code 0.
- **The class** (`pdf.dfy`, module `PdfToText`). `Pdf` is a Dafny class
  with the PHP properties as fields. The setters are methods whose
  `modifies` clauses name only the field each one writes. `Text` and `Scan`
  read the configuration and take the process runner as a parameter
  (`run: Invocation -> Completed`). A ghost field `launched` records every
  invocation handed to the runner, so their contracts state how many
  processes start (one, or none when no file is set) and with which
  command, and what they return or raise. `setPdf` and `getText` take the
  filesystem check `is_readable` as a parameter (`readable: string -> bool`).

PHP exceptions are the error side of `Result`/`Outcome` values. There are
four: `PdfNotFound` with the message `setPdf` builds, `CouldNotExtractText`
and `CouldNotScanPdf` carrying the completed process, and
`UninitializedPdf`. The last one stands for the PHP `Error` raised when
`text()` or `scan()` reads the typed property `$pdf` before `setPdf` has
assigned it. The model therefore holds `$pdf` as an `Option<string>`.

Some behaviours of the code are easy to misread. The model follows the code:

- Merging options is a list append, not a map merge by flag name. Every
  option list is integer-keyed, because `explode` returns a list. So
  `array_merge` (src/Pdf.php:82-85, src/Pdf.php:101) concatenates.
- `setOptions(["layout", "-enc UTF-8"])` followed by
  `addOptions(["-enc Latin1"])` passes `-layout -enc UTF-8 -enc Latin1` to
  the tool. The earlier value is not overridden. The contracts of
  `Pdf.SetOptions` and `Pdf.AddOptions` make the two calls append their
  parses. `ParseOptionsAppend` and `ParseOptionsSingle` split
  `["layout", "-enc UTF-8"]` into its two options. `ParseBareWord` gives
  the tokens for `layout`, and `ParseFlagValue` gives them for each `-enc`
  option. `DuplicateFlagsKept` states the repeated-flag part directly.
- Option strings are trimmed with PHP's default list, which has no form
  feed. The process output in `text()` is trimmed with a list that includes
  form feed. `FormFeedOnlyStrippedFromOutput` shows the difference.
- `binPathQPDF` is stored by the constructor. No operation reads it: the
  invocations stated by `Text` and `Scan` do not mention it.

## Model

| member | source | states |
|---|---|---|
| `PhpStrings.TrimStart` | src/Pdf.php:93 | the result is a suffix of the input; every character cut from the front is in the list; the first remaining character is not |
| `PhpStrings.TrimEnd` | src/Pdf.php:120 | the result is a prefix of the input; every character cut from the back is in the list; the last remaining character is not |
| `PhpStrings.Trim` | src/Pdf.php:120 | `trim($s, $chars)` is never longer than `s`, and neither end of a non-empty result is in the list |
| `PhpStrings.TrimIsSlice` | src/Pdf.php:120 | the trimmed string is one contiguous piece `s[i..j]` of the input; everything before `i` and from `j` on is in the list, and nothing inside is removed |
| `PhpStrings.TrimIdempotent` | src/Pdf.php:120 | trimming an already trimmed string changes nothing |
| `PhpStrings.TrimUnique` | src/Pdf.php:93 | reference description: for `pre + mid + post` with `pre` and `post` made of listed characters and `mid` empty or with unlisted ends, `trim` returns exactly `mid` |
| `PhpStrings.IndexOf` | src/Pdf.php:98 | finds the first occurrence of the separator: absent iff the character is not in the string, otherwise an in-range position holding it with no earlier occurrence |
| `PhpStrings.Explode2` | src/Pdf.php:98 | no contract of its own; `explode(' ', s, 2)`, described by `ExplodeImplode` and `ImplodeExplode` |
| `PhpStrings.ExplodeImplode` | src/Pdf.php:98 | `explode(' ', s, 2)` gives one or two parts; the first has no separator; there are two exactly when `s` contains the separator; joining them with the separator restores `s` |
| `PhpStrings.ImplodeExplode` | src/Pdf.php:98 | reverse round trip: `[first, rest]` with `first` free of the separator survives join-then-explode, even when `rest` contains the separator |
| `PdfOptions.WithDash` | src/Pdf.php:94-96 | the result starts with `-`; it is the input unchanged exactly when that already starts with `-`, and otherwise it is the input behind exactly one added character |
| `PdfOptions.NormaliseText` | src/Pdf.php:93-96 | no contract of its own; trim then the dash rule, described by `NormaliseTextDash` |
| `PdfOptions.Normalise` | src/Pdf.php:92-99 | no contract of its own; the mapper closure, described by `NormaliseTokens` |
| `PdfOptions.MapNormalise` | src/Pdf.php:103 | no contract of its own; `array_map` of the mapper, element by element, used through `ParseOptionsIsConcat` and `ParseOptionsAppend` |
| `PdfOptions.Merge` | src/Pdf.php:101 | no contract of its own; the reducer `array_merge($carry, $option)` on integer-keyed lists, which appends; described by `ReduceIsConcat` |
| `PdfOptions.Reduce` | src/Pdf.php:103 | no contract of its own; `array_reduce` as a left fold, described by `ReduceIsConcat` |
| `PdfOptions.ParseOptions` | src/Pdf.php:90-104 | no contract of its own; described by `ParseOptionsIsConcat`, `ParseOptionsAppend`, `ParseOptionsSingle`, `ParseOptionsLength` and `ParseOptionsAt` |
| `PdfOptions.ReduceIsConcat` | src/Pdf.php:101-103 | `array_reduce` with the `array_merge` reducer, from any carry, equals the carry followed by all lists concatenated in order |
| `PdfOptions.NormaliseTextDash` | src/Pdf.php:93-96 | the normalised option starts with `-`; it equals the trimmed input exactly when that already starts with `-`, and otherwise is `"-"` followed by the trimmed input; an input made only of characters of PHP's default trim list (space, tab, newline, carriage return, NUL, vertical tab), or empty, becomes `"-"`; its last character is never whitespace that `trim` strips |
| `PdfOptions.NormaliseTokens` | src/Pdf.php:92-99 | the mapper gives one or two tokens; the first starts with `-` and has no space; there is a second exactly when the normalised string has a space; the second is never empty and may contain spaces; joining the tokens with one space gives back the normalised string |
| `PdfOptions.ParseOptionsIsConcat` | src/Pdf.php:90-104 | `parseOptions(xs)` is the in-order concatenation of the mapper's token lists |
| `PdfOptions.ParseOptionsAppend` | src/Pdf.php:101-103 | `parseOptions(xs + ys) == parseOptions(xs) + parseOptions(ys)`: results are appended, never overridden by flag name |
| `PdfOptions.ParseOptionsSingle` | src/Pdf.php:103 | one option string parses to exactly its own mapper tokens |
| `PdfOptions.ParseOptionsLength` | src/Pdf.php:98-103 | the number of tokens is at least the number of option strings and at most twice that |
| `PdfOptions.ParseOptionsAt` | src/Pdf.php:101-103 | option `i`'s tokens sit, unchanged, after the tokens of options `0..i-1` and before those of the later options; the token at that offset starts with `-` |
| `PdfOptions.ParseFlagValue` | src/Pdf.php:92-99 | `"-flag value"` parses to `["-flag", "value"]` when the flag has no space and the value does not end in whitespace |
| `PdfOptions.ParseBareWord` | src/Pdf.php:94-96 | a bare word without a leading dash parses to the single token `"-" + word` |
| `PdfOptions.DuplicateFlagsKept` | src/Pdf.php:80-88 | two option strings for the same flag, parsed separately and appended, as `setOptions` then `addOptions` do, give `[flag, first, flag, second]`; both values are kept |
| `Process.IsSuccessful` | src/Pdf.php:66 | no contract of its own; `isSuccessful()` is exit code 0, the condition `TextOutcome` and `ScanOutcome` branch on |
| `PdfToText.NotFoundMessage` | src/Pdf.php:37 | no contract of its own; the message "Could not read" followed by the path in backticks, stated in the contract of `Pdf.SetPdf` |
| `PdfToText.TextCommand` | src/Pdf.php:113 | no contract of its own; described by `TextCommandLayout` |
| `PdfToText.ScanCommand` | src/Pdf.php:64 | no contract of its own; described by `ScanCommandLayout` |
| `PdfToText.TextCommandLayout` | src/Pdf.php:113 | the extractor's argument vector is the tool path, then the options unchanged and in order, then the file, then `-`; its length is the number of options plus 3 |
| `PdfToText.ScanCommandLayout` | src/Pdf.php:64 | the OCR argument vector is the tool path, then the scan options unchanged and in order, then the same file twice; its length is the number of options plus 3 |
| `PdfToText.TextOutcome` | src/Pdf.php:116-120 | `text()` returns exactly when the exit code is 0, and then returns the output trimmed with `" \t\n\r\0\x0B\x0C"`; otherwise it raises `CouldNotExtractText` carrying the process |
| `PdfToText.ScanOutcome` | src/Pdf.php:66-70 | `scan()` succeeds exactly when the exit code is 0; otherwise it raises `CouldNotScanPdf` carrying the process |
| `PdfToText.TextOutcomeStripsSurroundings` | src/Pdf.php:120 | output `pre + text + post`, with `pre` and `post` made of listed characters and `text` with unlisted ends, comes back as exactly `text` |
| `PdfToText.FormFeedOnlyStrippedFromOutput` | src/Pdf.php:93 | for a string starting with a form feed, the output trim differs from the string and equals the output trim of the string without that form feed, so the form feed is cut; the normalised option is `-` followed by the default-list trim, and its second character is the form feed, which is kept behind the added dash |
| `PdfToText.Pdf.constructor` | src/Pdf.php:26-32 | each omitted argument takes its default (`/usr/bin/pdftotext`, `/usr/bin/ocrmypdf`, `/usr/bin/qpdf`, 300 seconds); both option lists start empty, no file is set and no process has been started |
| `PdfToText.Pdf.SetPdf` | src/Pdf.php:34-43 | a readable path is stored; an unreadable one raises `PdfNotFound` with the message "Could not read" followed by the path in backticks, and leaves the stored path unchanged; no other field can change |
| `PdfToText.Pdf.SetScanOptions` | src/Pdf.php:45-50 | the scan options become `parseOptions(xs)`; only that field can change |
| `PdfToText.Pdf.AddScanOptions` | src/Pdf.php:52-60 | the scan options become the old list followed by `parseOptions(xs)`, so they grow by at least one and at most two tokens per option string; only that field can change |
| `PdfToText.Pdf.Scan` | src/Pdf.php:62-71 | with no file set it raises the uninitialised-property error and starts no process; otherwise it appends exactly one invocation, `[binPathOcr] + scanOptions + [pdf, pdf]` with the configured timeout, to the log of started processes, and succeeds exactly when that run exits with code 0, raising `CouldNotScanPdf` carrying it otherwise |
| `PdfToText.Pdf.SetOptions` | src/Pdf.php:73-78 | the extraction options become `parseOptions(xs)`; only that field can change |
| `PdfToText.Pdf.AddOptions` | src/Pdf.php:80-88 | the extraction options become the old list followed by `parseOptions(xs)`, so the old list is a prefix and grows by at least one and at most two tokens per option string; only that field can change |
| `PdfToText.Pdf.SetTimeout` | src/Pdf.php:106-109 | the timeout is overwritten; only that field can change |
| `PdfToText.Pdf.Text` | src/Pdf.php:111-121 | with no file set it raises the uninitialised-property error and starts no process; otherwise it appends exactly one invocation, `[binPath] + options + [pdf, "-"]` with the configured timeout, to the log of started processes, and returns `TextOutcome` of that run; the scan options and the OCR and qpdf paths play no part |
| `PdfToText.Pdf.GetText` | src/Pdf.php:123-131 | an unreadable file raises `PdfNotFound` and the returned log of started processes is empty; otherwise that log is exactly one invocation, `[binPath ?? /usr/bin/pdftotext] + parseOptions(options) + [pdf, "-"]` with the given timeout (60 seconds by default), and the result is `TextOutcome` of that run |

## Left out

- Process execution is left out: starting the child, waiting, enforcing
  the timeout and killing the child all live in Symfony's `Process` class.
  The runner is a parameter, so the model holds the exit code and outputs
  but not how they were produced. Which processes start is recorded in the
  ghost log `launched`, which only `Text` and `Scan` extend.
- `Process::setTimeout` may reject a timeout. `run()` may throw its own
  exceptions: on a timeout, when the child is killed by a signal, or when
  it cannot be started. All of these are Symfony code that is not part of this model.
  The model passes the configured timeout to the runner unchanged.
- `is_readable` queries the filesystem. It is a parameter, read once when
  `setPdf` is called.
- The message and diagnostics inside `CouldNotExtractText` and
  `CouldNotScanPdf` are not shown in the source. The model keeps only the
  completed process they are built from.
- `scan()` rewrites the PDF file in place. File contents are not modelled;
  only the command and its exit status are.
- The external tools (`pdftotext`, `ocrmypdf`, `qpdf`) are not modelled.
  They do the PDF parsing and OCR.
- PHP strings are byte strings; the model uses `string` (characters).
  Every character that `trim`, `explode` and the dash rule compare against
  is ASCII, so the operations on them are unchanged.
- `setTimeout($timeout)` is untyped in PHP. The model takes an `int` and
  leaves out PHP's coercion of other values.
- Setters return `$this` so calls can be chained. The model's methods
  return nothing, or an `Outcome` where PHP can throw. Chaining is written
  as consecutive calls, as in `GetText`.
- `parseOptions(array $options)` accepts values of any type. The mapper's
  `string $content` parameter (src/Pdf.php:92) converts integers, floats
  and booleans to strings and raises `TypeError` on null or arrays. The
  model takes only strings, so neither the conversion nor the `TypeError`
  is modelled.
- Option arrays with string keys are modelled as sequences of their values.
  `array_map` keeps keys, but the reducer uses only the values and
  `explode` produces fresh integer keys. The keys therefore never reach
  the command.
