/** The class `Spatie\PdfToText\Pdf` (src/Pdf.php): configuration held in
    fields, two operations that each start one external process, and the
    one-shot helper `getText`.  The filesystem check `is_readable` and the
    process runner are parameters: `readable` answers for a path at the
    moment of the call, `run` gives the completed process for an invocation. */
module PdfToText {
  import opened Wrappers
  import opened PhpStrings
  import opened PdfOptions
  import opened Process

  const DefaultBinPath := "/usr/bin/pdftotext"
  const DefaultBinPathOcr := "/usr/bin/ocrmypdf"
  const DefaultBinPathQpdf := "/usr/bin/qpdf"
  /** Seconds; the constructor's default. */
  const DefaultTimeout := 300
  /** Seconds; the default of the static helper `getText`. */
  const GetTextTimeout := 60

  /** The list `text()` passes to `trim`: the default list plus form feed. */
  const OutputTrimChars: set<char> := DefaultTrimChars + {'\U{0C}'}

  /** The exceptions the class raises.  `UninitializedPdf` is the PHP `Error`
      raised when `text()` or `scan()` reads the typed property `$pdf`
      before `setPdf` has assigned it. */
  datatype Error =
    | PdfNotFound(message: string)
    | CouldNotExtractText(process: Completed)
    | CouldNotScanPdf(process: Completed)
    | UninitializedPdf

  /** The message `setPdf` puts in `PdfNotFound`. */
  function NotFoundMessage(path: string): string
  {
    "Could not read `" + path + "`"
  }

  /** The command `text()` runs: the extractor, its options, the file, and
      `-` so that the text goes to standard output. */
  function TextCommand(binPath: string, options: seq<string>, pdf: string): seq<string>
  {
    [binPath] + options + [pdf, "-"]
  }

  /** The command `scan()` runs: the OCR tool, its options, and the file
      twice, as input and as output, so that it is rewritten in place. */
  function ScanCommand(binPathOcr: string, scanOptions: seq<string>, pdf: string): seq<string>
  {
    [binPathOcr] + scanOptions + [pdf, pdf]
  }

  /** The extractor's command: its path first, the options unchanged and in
      order, then the file and `-` last. */
  lemma TextCommandLayout(binPath: string, options: seq<string>, pdf: string)
    ensures var argv := TextCommand(binPath, options, pdf);
      && |argv| == |options| + 3
      && argv[0] == binPath
      && argv[1..|argv| - 2] == options
      && argv[|argv| - 2] == pdf && argv[|argv| - 1] == "-"
  {
    var argv := TextCommand(binPath, options, pdf);
    assert argv[1..|argv| - 2] == options;
  }

  /** The OCR tool's command: its path first, the scan options unchanged and
      in order, then the same file as input and as output. */
  lemma ScanCommandLayout(binPathOcr: string, scanOptions: seq<string>, pdf: string)
    ensures var argv := ScanCommand(binPathOcr, scanOptions, pdf);
      && |argv| == |scanOptions| + 3
      && argv[0] == binPathOcr
      && argv[1..|argv| - 2] == scanOptions
      && argv[|argv| - 2] == argv[|argv| - 1] == pdf
  {
    var argv := ScanCommand(binPathOcr, scanOptions, pdf);
    assert argv[1..|argv| - 2] == scanOptions;
  }

  /** What `text()` makes of a finished process: on exit code 0 the output
      with `OutputTrimChars` stripped from both ends (a contiguous piece of
      the output, by `TrimIsSlice`), which has no such character at either
      end and is left alone by a second trim; otherwise `CouldNotExtractText`. */
  function TextOutcome(c: Completed): (r: Result<string, Error>)
    ensures r.Ok? <==> IsSuccessful(c)
    ensures r.Err? ==> r.error == CouldNotExtractText(c)
    ensures r.Ok? ==> r.value == [] || (r.value[0] !in OutputTrimChars && r.value[|r.value| - 1] !in OutputTrimChars)
    ensures r.Ok? ==> Trim(r.value, OutputTrimChars) == r.value
  {
    if IsSuccessful(c) then
      TrimIdempotent(c.output, OutputTrimChars);
      Ok(Trim(c.output, OutputTrimChars))
    else
      Err(CouldNotExtractText(c))
  }

  /** What `scan()` makes of a finished process: success on exit code 0,
      otherwise `CouldNotScanPdf` carrying the process. */
  function ScanOutcome(c: Completed): (r: Outcome<Error>)
    ensures r.Pass? <==> IsSuccessful(c)
    ensures r.Fail? ==> r.error == CouldNotScanPdf(c)
  {
    if IsSuccessful(c) then Pass else Fail(CouldNotScanPdf(c))
  }

  /** Text surrounded by stripped characters comes back without them, and
      nothing inside it is touched. */
  lemma TextOutcomeStripsSurroundings(pre: string, text: string, post: string, errorOutput: string)
    requires forall k :: 0 <= k < |pre| ==> pre[k] in OutputTrimChars
    requires forall k :: 0 <= k < |post| ==> post[k] in OutputTrimChars
    requires text == [] || (text[0] !in OutputTrimChars && text[|text| - 1] !in OutputTrimChars)
    ensures TextOutcome(Completed(0, pre + text + post, errorOutput)) == Ok(text)
  {
    TrimUnique(pre, text, post, OutputTrimChars);
  }

  /** Form feed is stripped from the process output but not from option
      strings: a leading form feed in an option survives into its flag. */
  lemma FormFeedOnlyStrippedFromOutput(s: string)
    requires |s| > 0 && s[0] == '\U{0C}'
    ensures Trim(s, OutputTrimChars) != s
    ensures Trim(s, OutputTrimChars) == Trim(s[1..], OutputTrimChars)
    ensures NormaliseText(s) == "-" + Trim(s, DefaultTrimChars)
    ensures |NormaliseText(s)| > 1 && NormaliseText(s)[1] == '\U{0C}'
  {
    assert s[0] in OutputTrimChars;
    assert s[0] !in DefaultTrimChars;
    TrimStartKeeps(s, DefaultTrimChars);
    TrimEndKeepsFirst(s, DefaultTrimChars);
  }

  class Pdf {
    var pdf: Option<string>
    var binPath: string
    var binPathOcr: string
    var binPathQpdf: string
    var scanOptions: seq<string>
    var options: seq<string>
    var timeout: int
    /** Every process this object has started, in order: the invocation
        handed to the runner by each `text()` or `scan()` call. */
    ghost var launched: seq<Invocation>

    /** Each argument left out (null in PHP) takes its default. */
    constructor (binPath: Option<string> := None, binPathOcr: Option<string> := None,
                 binPathQpdf: Option<string> := None, timeout: Option<int> := None)
      ensures this.binPath == binPath.GetOr(DefaultBinPath)
      ensures this.binPathOcr == binPathOcr.GetOr(DefaultBinPathOcr)
      ensures this.binPathQpdf == binPathQpdf.GetOr(DefaultBinPathQpdf)
      ensures this.timeout == timeout.GetOr(DefaultTimeout)
      ensures pdf == None && options == [] && scanOptions == []
      ensures launched == []
    {
      this.binPath := binPath.GetOr(DefaultBinPath);
      this.binPathOcr := binPathOcr.GetOr(DefaultBinPathOcr);
      this.binPathQpdf := binPathQpdf.GetOr(DefaultBinPathQpdf);
      this.timeout := timeout.GetOr(DefaultTimeout);
      pdf := None;
      options := [];
      scanOptions := [];
      launched := [];
    }

    /** Stores the path when it is readable; otherwise fails with
        `PdfNotFound` and leaves the stored path as it was. */
    method SetPdf(path: string, readable: string -> bool) returns (r: Outcome<Error>)
      modifies this`pdf
      ensures readable(path) ==> r == Pass && pdf == Some(path)
      ensures !readable(path) ==> r == Fail(PdfNotFound(NotFoundMessage(path))) && pdf == old(pdf)
    {
      if !readable(path) {
        return Fail(PdfNotFound(NotFoundMessage(path)));
      }
      pdf := Some(path);
      r := Pass;
    }

    /** Replaces the scan options with the parse of `xs`. */
    method SetScanOptions(xs: seq<string>)
      modifies this`scanOptions
      ensures scanOptions == ParseOptions(xs)
    {
      scanOptions := ParseOptions(xs);
    }

    /** Appends the parse of `xs` to the scan options: what was there stays,
        as a prefix. */
    method AddScanOptions(xs: seq<string>)
      modifies this`scanOptions
      ensures scanOptions == old(scanOptions) + ParseOptions(xs)
      ensures |old(scanOptions)| + |xs| <= |scanOptions| <= |old(scanOptions)| + 2 * |xs|
    {
      ParseOptionsLength(xs);
      scanOptions := Merge(scanOptions, ParseOptions(xs));
    }

    /** Replaces the extraction options with the parse of `xs`. */
    method SetOptions(xs: seq<string>)
      modifies this`options
      ensures options == ParseOptions(xs)
    {
      options := ParseOptions(xs);
    }

    /** Appends the parse of `xs` to the extraction options: what was there
        stays, as a prefix, and no flag is overridden. */
    method AddOptions(xs: seq<string>)
      modifies this`options
      ensures options == old(options) + ParseOptions(xs)
      ensures |old(options)| + |xs| <= |options| <= |old(options)| + 2 * |xs|
    {
      ParseOptionsLength(xs);
      options := Merge(options, ParseOptions(xs));
    }

    method SetTimeout(seconds: int)
      modifies this`timeout
      ensures timeout == seconds
    {
      timeout := seconds;
    }

    /** Runs the OCR tool over the stored file once, with the configured
        timeout; fails when no file was set, before any process starts, or
        when the tool exits non-zero. */
    method Scan(run: Invocation -> Completed) returns (r: Outcome<Error>)
      modifies this`launched
      ensures pdf == None ==> r == Fail(UninitializedPdf) && launched == old(launched)
      ensures pdf.Some? ==>
        var inv := Invocation(ScanCommand(binPathOcr, scanOptions, pdf.value), timeout);
        && launched == old(launched) + [inv]
        && (r.Pass? <==> run(inv).exitCode == 0)
        && (r.Fail? ==> r.error == CouldNotScanPdf(run(inv)))
    {
      if pdf == None {
        return Fail(UninitializedPdf);
      }
      var inv := Invocation(ScanCommand(binPathOcr, scanOptions, pdf.value), timeout);
      launched := launched + [inv];
      var c := run(inv);
      r := ScanOutcome(c);
    }

    /** Runs the extractor over the stored file once, with the configured
        timeout, and returns its trimmed standard output; fails when no file
        was set, before any process starts, or when the tool exits non-zero.
        The OCR and qpdf paths and the scan options play no part. */
    method Text(run: Invocation -> Completed) returns (r: Result<string, Error>)
      modifies this`launched
      ensures pdf == None ==> r == Err(UninitializedPdf) && launched == old(launched)
      ensures pdf.Some? ==>
        var inv := Invocation(TextCommand(binPath, options, pdf.value), timeout);
        launched == old(launched) + [inv] && r == TextOutcome(run(inv))
    {
      if pdf == None {
        return Err(UninitializedPdf);
      }
      var inv := Invocation(TextCommand(binPath, options, pdf.value), timeout);
      launched := launched + [inv];
      var c := run(inv);
      r := TextOutcome(c);
    }

    /** `Pdf::getText`: a fresh object with the given extractor path, the
        options, the timeout (60 seconds unless given) and the file, set in
        that order, then `text()`.  `started` lists the processes started:
        none when the file is unreadable, otherwise exactly the extraction. */
    static method GetText(readable: string -> bool, run: Invocation -> Completed, pdf: string,
                          binPath: Option<string> := None, options: seq<string> := [],
                          timeout: int := GetTextTimeout)
      returns (r: Result<string, Error>, ghost started: seq<Invocation>)
      ensures !readable(pdf) ==> r == Err(PdfNotFound(NotFoundMessage(pdf))) && started == []
      ensures readable(pdf) ==>
        var inv := Invocation(TextCommand(binPath.GetOr(DefaultBinPath), ParseOptions(options), pdf), timeout);
        started == [inv] && r == TextOutcome(run(inv))
    {
      var p := new Pdf(binPath);
      p.SetOptions(options);
      p.SetTimeout(timeout);
      var stored := p.SetPdf(pdf, readable);
      if stored.Fail? {
        return Err(stored.error), p.launched;
      }
      assert p.binPath == binPath.GetOr(DefaultBinPath);
      assert p.options == ParseOptions(options) && p.timeout == timeout && p.pdf == Some(pdf);
      r := p.Text(run);
      started := p.launched;
    }
  }
}
