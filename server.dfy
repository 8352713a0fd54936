/** backend/index.ts: the converter adapter (`runPdf2Html`), the multer
    storage name and MIME filter, and the `/upload` handler, with every
    piece of I/O (the child process, the file system, the HTTP exchange)
    turned into an input. */
module Server {
  import opened Wrappers
  import opened Strings
  import opened Html
  import PdfParser

  // ---------------------------------------------------------------------
  // Converter process adapter
  // ---------------------------------------------------------------------

  /** The program `runPdf2Html` spawns. */
  const ConverterBinary := "./bin/pdf2htmlEX"
  /** The fixed options that precede the two paths. */
  const FixedOptions: seq<string> := ["--zoom", "1.3", "1024"]
  /** The text of the error a failed conversion rejects with, before the code. */
  const ExitPrefix := "pdf2htmlEX exited with code "

  /** The argument vector of the spawned converter. */
  function ConverterArgs(pdfPath: string, htmlPath: string): (argv: seq<string>)
    ensures |argv| == 5 && argv[..3] == FixedOptions && argv[3] == pdfPath && argv[4] == htmlPath
  {
    FixedOptions + [pdfPath, htmlPath]
  }

  /** Reads the input and output paths back from an argument vector of the
      adapter's shape: the fixed options, then exactly two operands. */
  function ArgPaths(argv: seq<string>): Option<(string, string)> {
    if |argv| == 5 && argv[..3] == FixedOptions then Some((argv[3], argv[4])) else None
  }

  /** The vector is the fixed options followed by exactly the two paths, in
      that order: the paths can be read back, and a vector of that shape is
      the one built from them. */
  lemma ConverterArgsShape(pdfPath: string, htmlPath: string, argv: seq<string>)
    ensures ConverterArgs(pdfPath, htmlPath) == ["--zoom", "1.3", "1024", pdfPath, htmlPath]
    ensures ArgPaths(ConverterArgs(pdfPath, htmlPath)) == Some((pdfPath, htmlPath))
    ensures ArgPaths(argv) == Some((pdfPath, htmlPath)) ==> argv == ConverterArgs(pdfPath, htmlPath)
  {
    var v := ConverterArgs(pdfPath, htmlPath);
    assert v[..3] == FixedOptions;
    if ArgPaths(argv) == Some((pdfPath, htmlPath)) {
      assert argv == argv[..3] + [argv[3], argv[4]];
    }
  }

  /** How the template literal `${code}` renders the close code: `null`
      when the process ended without one, the decimal integer otherwise. */
  function CodeText(code: Option<int>): (r: string)
    ensures r != []
    ensures code.Some? && code.value >= 0 ==> forall k :: 0 <= k < |r| ==> IsDigit(r[k])
    ensures code.Some? && code.value < 0 ==> r[0] == '-'
  {
    if code.None? then "null" else IntToString(code.value)
  }

  function ExitMessage(code: Option<int>): (r: string)
    ensures |ExitPrefix| < |r| && r[..|ExitPrefix|] == ExitPrefix
  {
    ExitPrefix + CodeText(code)
  }

  /** How the promise settles on `close`: resolved with the HTML path iff
      the code is exactly 0, rejected with the exit message otherwise. */
  function CloseOutcome(code: Option<int>, htmlPath: string): (r: Result<string, string>)
    ensures r.Ok? <==> code == Some(0)
    ensures r.Ok? ==> r.value == htmlPath
    ensures r.Err? ==> r.error == ExitMessage(code)
  {
    if code == Some(0) then Ok(htmlPath) else Err(ExitMessage(code))
  }

  predicate AllDigits(s: string) {
    forall k :: 0 <= k < |s| ==> IsDigit(s[k])
  }

  /** Reads a rendered close code: `null`, a decimal, or `-` and a decimal. */
  function ParseCode(s: string): Option<Option<int>> {
    if s == "null" then Some(None)
    else if |s| > 1 && s[0] == '-' && AllDigits(s[1..]) then (var n: int := ParseNat(s[1..]); Some(Some(-n)))
    else if s != [] && AllDigits(s) then Some(Some(ParseNat(s)))
    else None
  }

  /** The close code an exit message names, if it is one. */
  function MessageCode(msg: string): Option<Option<int>> {
    if |ExitPrefix| <= |msg| && msg[..|ExitPrefix|] == ExitPrefix then ParseCode(msg[|ExitPrefix|..])
    else None
  }

  /** A non-negative code reads back from its digits. */
  lemma ParseNonNegativeCode(i: int)
    requires i >= 0
    ensures ParseCode(CodeText(Some(i))) == Some(Some(i))
  {
    var s := NatToString(i);
    assert CodeText(Some(i)) == s;
    ParseNatToString(i);
    assert IsDigit(s[0]);
    assert s != "null" by { assert s[0] != 'n'; }
    assert !(|s| > 1 && s[0] == '-');
    assert AllDigits(s);
  }

  /** A negative code reads back from `-` and the digits of its magnitude. */
  lemma ParseNegativeCode(i: int)
    requires i < 0
    ensures ParseCode(CodeText(Some(i))) == Some(Some(i))
  {
    var d := NatToString(-i);
    var s := "-" + d;
    assert CodeText(Some(i)) == s;
    assert s[1..] == d;
    assert AllDigits(s[1..]);
    ParseNatToString(-i);
    assert s != "null" by { assert s[0] == '-'; }
  }

  /** The rejection names the code: it can be read back from the message,
      null included, so no two codes share a message. */
  lemma ExitMessageNamesCode(code: Option<int>)
    ensures MessageCode(ExitMessage(code)) == Some(code)
  {
    var m := ExitMessage(code);
    assert m[..|ExitPrefix|] == ExitPrefix;
    assert m[|ExitPrefix|..] == CodeText(code);
    if code.Some? {
      if code.value >= 0 {
        ParseNonNegativeCode(code.value);
      } else {
        ParseNegativeCode(code.value);
      }
    }
  }

  /** What the child process emits; `runPdf2Html` listens to these three. */
  datatype ProcessEvent =
    | StdoutData(chunk: string)
    | StderrData(chunk: string)
    | Closed(code: Option<int>)

  /** The state of the promise `runPdf2Html` returns. */
  datatype Settlement = Pending | Resolved(path: string) | Rejected(message: string)

  /** A console line written by the data handlers. */
  datatype LogLine = Info(text: string) | Error(text: string)

  /** One event delivered to the promise: data leaves it as it is; the first
      `close` settles it; a settled promise never changes again. */
  function Step(s: Settlement, e: ProcessEvent, htmlPath: string): (r: Settlement)
    ensures !s.Pending? || !e.Closed? ==> r == s
    ensures s.Pending? && e.Closed? ==> !r.Pending?
  {
    if !s.Pending? || !e.Closed? then s
    else
      match CloseOutcome(e.code, htmlPath)
      case Ok(p) => Resolved(p)
      case Err(m) => Rejected(m)
  }

  /** The settlement after a whole trace of events. */
  function Settle(s: Settlement, events: seq<ProcessEvent>, htmlPath: string): (r: Settlement)
    ensures r.Pending? ==> s.Pending? && forall k :: 0 <= k < |events| ==> !events[k].Closed?
    decreases |events|
  {
    if events == [] then s else Settle(Step(s, events[0], htmlPath), events[1..], htmlPath)
  }

  /** The console lines a trace produces. */
  function LogOf(e: ProcessEvent): seq<LogLine> {
    match e
    case StdoutData(c) => [Info("stdout: " + c)]
    case StderrData(c) => [Error("stderr: " + c)]
    case Closed(_) => []
  }

  function CloseEvents(events: seq<ProcessEvent>): (r: seq<ProcessEvent>)
    ensures forall k :: 0 <= k < |r| ==> r[k].Closed?
  {
    if events == [] then []
    else (if events[0].Closed? then [events[0]] else []) + CloseEvents(events[1..])
  }

  /** Output on stdout and stderr is only logged: the settlement of any
      trace is that of its `close` events alone. */
  lemma {:induction false} DataNeverDecides(s: Settlement, events: seq<ProcessEvent>, htmlPath: string)
    ensures Settle(s, events, htmlPath) == Settle(s, CloseEvents(events), htmlPath)
    decreases |events|
  {
    if events != [] {
      DataNeverDecides(Step(s, events[0], htmlPath), events[1..], htmlPath);
      var c := CloseEvents(events);
      if events[0].Closed? {
        assert c == [events[0]] + CloseEvents(events[1..]);
        assert c[0] == events[0] && c[1..] == CloseEvents(events[1..]);
      } else {
        assert c == CloseEvents(events[1..]);
        assert Step(s, events[0], htmlPath) == s;
      }
    }
  }

  lemma {:induction false} SettledStays(s: Settlement, events: seq<ProcessEvent>, htmlPath: string)
    requires !s.Pending?
    ensures Settle(s, events, htmlPath) == s
    decreases |events|
  {
    if events != [] {
      SettledStays(s, events[1..], htmlPath);
    }
  }

  /** The promise stays pending until the first `close` event (there is no
      timeout), and that event alone decides: resolved with `htmlPath` on
      code 0, rejected naming the code otherwise. */
  lemma FirstCloseDecides(events: seq<ProcessEvent>, htmlPath: string)
    ensures CloseEvents(events) == [] ==> Settle(Pending, events, htmlPath) == Pending
    ensures CloseEvents(events) != [] ==>
              var code := CloseEvents(events)[0].code;
              Settle(Pending, events, htmlPath)
              == if code == Some(0) then Resolved(htmlPath) else Rejected(ExitMessage(code))
  {
    DataNeverDecides(Pending, events, htmlPath);
    var c := CloseEvents(events);
    if c != [] {
      SettledStays(Step(Pending, c[0], htmlPath), c[1..], htmlPath);
    }
  }

  /** One run of `runPdf2Html`: the converter spawned with its arguments,
      the promise it returns and what its handlers have logged. */
  class ConverterRun {
    const command: string
    const argv: seq<string>
    const htmlPath: string
    var settlement: Settlement
    var log: seq<LogLine>

    constructor (pdfPath: string, htmlPath: string)
      ensures command == ConverterBinary && argv == ConverterArgs(pdfPath, htmlPath)
      ensures this.htmlPath == htmlPath && settlement == Pending && log == []
    {
      command := ConverterBinary;
      argv := ConverterArgs(pdfPath, htmlPath);
      this.htmlPath := htmlPath;
      settlement := Pending;
      log := [];
    }

    /** The `stdout` data handler. */
    method OnStdout(chunk: string)
      modifies this
      ensures settlement == old(settlement)
      ensures log == old(log) + [Info("stdout: " + chunk)]
    {
      log := log + [Info("stdout: " + chunk)];
    }

    /** The `stderr` data handler. */
    method OnStderr(chunk: string)
      modifies this
      ensures settlement == old(settlement)
      ensures log == old(log) + [Error("stderr: " + chunk)]
    {
      log := log + [Error("stderr: " + chunk)];
    }

    /** The `close` handler: `resolve` or `reject`, which only take effect
      on a pending promise. The branch on the code is the handler's own;
      `Step` is its specification. */
    method OnClose(code: Option<int>)
      modifies this
      ensures settlement == Step(old(settlement), Closed(code), htmlPath)
      ensures log == old(log)
    {
      if code == Some(0) {
        if settlement.Pending? { settlement := Resolved(htmlPath); }
      } else {
        if settlement.Pending? { settlement := Rejected(ExitPrefix + CodeText(code)); }
      }
    }

    /** The child process emitting one event to the listener registered
      for it. */
    method Deliver(e: ProcessEvent)
      modifies this
      ensures settlement == Step(old(settlement), e, htmlPath)
      ensures log == old(log) + LogOf(e)
    {
      match e
      case StdoutData(c) => OnStdout(c);
      case StderrData(c) => OnStderr(c);
      case Closed(code) => OnClose(code);
    }
  }

  // ---------------------------------------------------------------------
  // Multer storage and filter
  // ---------------------------------------------------------------------

  /** The one MIME type the filter lets through. */
  const PdfMime := "application/pdf"
  /** The error the filter raises for any other type. */
  const FilterError := "Only PDF and DOCX files are allowed!"

  /** `fileFilter`: accept the file, or fail with the filter's error. */
  function FileFilter(mimetype: string): (r: Result<bool, string>)
    ensures r.Ok? <==> mimetype == PdfMime
    ensures r.Ok? ==> r.value
    ensures r.Err? ==> r.error == FilterError
  {
    if mimetype == PdfMime then Ok(true) else Err(FilterError)
  }

  /** `storage.filename`: the upload time in milliseconds, a dash and the
      client's file name. */
  function StoredFilename(timestamp: nat, originalName: string): (r: string)
    ensures |NatToString(timestamp)| < |r| && r[..|NatToString(timestamp)|] == NatToString(timestamp)
    ensures r[|NatToString(timestamp)|] == '-'
    ensures r[|NatToString(timestamp)| + 1..] == originalName
  {
    NatToString(timestamp) + "-" + originalName
  }

  /** Reads a stored filename back into its timestamp and original name. */
  function SplitStoredFilename(s: string): Option<(nat, string)> {
    var i := IndexOf(s, '-');
    if 0 < i < |s| && AllDigits(s[..i]) then Some((ParseNat(s[..i]), s[i + 1..])) else None
  }

  /** The stored name determines the timestamp and the original name:
      a decimal timestamp has no dash, so the first dash separates them. */
  lemma StoredFilenameRoundTrip(timestamp: nat, originalName: string)
    ensures SplitStoredFilename(StoredFilename(timestamp, originalName)) == Some((timestamp, originalName))
  {
    var t := NatToString(timestamp);
    var s := StoredFilename(timestamp, originalName);
    assert s[..|t|] == t;
    assert s[|t|] == '-';
    assert forall k :: 0 <= k < |t| ==> s[k] == t[k] && s[k] != '-';
    assert IndexOf(s, '-') == |t|;
    assert s[|t| + 1..] == originalName;
    ParseNatToString(timestamp);
  }

  /** Where multer stores the upload: `path.join("./uploads", filename)`.
      The join is plain concatenation when the name holds no `/`. */
  function UploadPath(storedName: string): (r: string)
    ensures |r| == |storedName| + 8 && r[..8] == "uploads/" && r[8..] == storedName
  {
    "uploads/" + storedName
  }

  /** `path.join("outputs", `${filename}.html`)`, for a name without `/`. */
  function OutputPath(storedName: string): (r: string)
    ensures |r| == |storedName| + 13 && r[..8] == "outputs/" && r[8..|r| - 5] == storedName
    ensures r[|r| - 5..] == ".html"
  {
    "outputs/" + storedName + ".html"
  }

  /** Distinct stored names give distinct upload and output paths, and the
      output path always names an `.html` file in `outputs/`. */
  lemma PathsDistinguishUploads(a: string, b: string)
    ensures OutputPath(a)[..8] == "outputs/" && OutputPath(a)[|OutputPath(a)| - 5..] == ".html"
    ensures OutputPath(a) == OutputPath(b) ==> a == b
    ensures UploadPath(a) == UploadPath(b) ==> a == b
  {
    var oa, ob := OutputPath(a), OutputPath(b);
    if oa == ob {
      assert |a| == |b|;
      assert a == oa[8..8 + |a|];
      assert b == ob[8..8 + |b|];
    }
    if UploadPath(a) == UploadPath(b) {
      assert a == UploadPath(a)[8..];
      assert b == UploadPath(b)[8..];
    }
  }

  // ---------------------------------------------------------------------
  // The `/upload` route
  // ---------------------------------------------------------------------

  /** The part of the request's multipart `pdf` field that matters. */
  datatype UploadedFile = UploadedFile(originalName: string, mimetype: string)

  /** `req.file` as the handler sees it. */
  datatype StoredFile = StoredFile(filename: string, path: string)

  /** What the client gets back. `NoResponse` is a request left hanging
      because the conversion never settles; `Forwarded` is an error multer
      passes on to Express's error handling before the handler runs. */
  datatype Response =
    | Status(code: int, body: string)
    | Json(blocks: seq<PdfParser.Block>)
    | NoResponse
    | Forwarded(error: string)

  /** The side effects the handler starts, in order. */
  datatype Action = Convert(command: string, argv: seq<string>) | ReadHtml(path: string) | Unlink(path: string)

  /** `upload.single("pdf")` before the handler: no file field leaves
      `req.file` unset; a file the filter refuses stops the request; an
      accepted one is stored as `<timestamp>-<originalname>` in uploads/. */
  function Intake(upload: Option<UploadedFile>, timestamp: nat): (r: Result<Option<StoredFile>, string>)
    ensures upload.None? ==> r == Ok(None)
    ensures upload.Some? && upload.value.mimetype != PdfMime ==> r == Err(FilterError)
    ensures upload.Some? && upload.value.mimetype == PdfMime ==>
              var name := StoredFilename(timestamp, upload.value.originalName);
              r == Ok(Some(StoredFile(name, UploadPath(name))))
  {
    match upload
    case None => Ok(None)
    case Some(f) =>
      match FileFilter(f.mimetype)
      case Err(e) => Err(e)
      case Ok(_) =>
        var name := StoredFilename(timestamp, f.originalName);
        Ok(Some(StoredFile(name, UploadPath(name))))
  }

  /** The `/upload` handler over the outcomes of its stages: how the
      conversion promise settles, the parsed output document (`None` when
      reading it throws) and whether deleting the upload succeeds.
      `document` is the `body` element of the parsed output, the root of
      the `body *` walk; the `head` is not part of it. */
  method HandleUpload(file: Option<StoredFile>, conversion: Settlement, document: Option<Node>, unlinked: bool)
    returns (response: Response, actions: seq<Action>)
    // no file: 400 and nothing started
    ensures file.None? <==> response == Status(400, "No PDF uploaded")
    ensures file.None? ==> actions == []
    // with a file, the converter is started first, on the upload and its output path
    ensures file.Some? ==>
              |actions| >= 1
              && actions[0] == Convert(ConverterBinary, ConverterArgs(file.value.path, OutputPath(file.value.filename)))
    // the output is read only after the conversion resolved, and the upload
    // is deleted only after the output was read and parsed
    ensures forall k :: 0 <= k < |actions| && actions[k].ReadHtml? ==>
              k == 1 && conversion.Resolved? && actions[k].path == OutputPath(file.value.filename)
    ensures forall k :: 0 <= k < |actions| && actions[k].Unlink? ==>
              k == 2 && actions[1].ReadHtml? && document.Some? && actions[k].path == file.value.path
    // on success every stage ran, in order: convert, read the output, delete the upload
    ensures response.Json? ==>
              actions == [Convert(ConverterBinary, ConverterArgs(file.value.path, OutputPath(file.value.filename))),
                          ReadHtml(OutputPath(file.value.filename)),
                          Unlink(file.value.path)]
    // a pending conversion never answers; a failed one starts nothing more
    ensures file.Some? && conversion.Pending? ==> response == NoResponse && |actions| == 1
    ensures file.Some? && conversion.Rejected? ==> |actions| == 1
    // a failed read of the output stops before the deletion
    ensures file.Some? && conversion.Resolved? && document.None? ==>
              actions == [Convert(ConverterBinary, ConverterArgs(file.value.path, OutputPath(file.value.filename))),
                          ReadHtml(OutputPath(file.value.filename))]
    // a failed deletion still happened after the read
    ensures file.Some? && conversion.Resolved? && document.Some? && !unlinked ==>
              |actions| == 3 && actions[1] == ReadHtml(OutputPath(file.value.filename))
              && actions[2] == Unlink(file.value.path)
    // blocks are sent only when every stage succeeded, and they are the extraction of the output
    ensures response.Json? <==> file.Some? && conversion.Resolved? && document.Some? && unlinked
    ensures response.Json? ==> response.blocks == PdfParser.ExtractBlocks(document.value) && |actions| == 3
    // any other failure is the uniform 500
    ensures file.Some? && !conversion.Pending? && !response.Json? ==> response == Status(500, "Conversion failed")
    ensures !response.Forwarded?
  {
    if file.None? {
      return Status(400, "No PDF uploaded"), [];
    }
    var filePath := file.value.path;
    var outputHtml := OutputPath(file.value.filename);
    actions := [Convert(ConverterBinary, ConverterArgs(filePath, outputHtml))];
    // await runPdf2Html(filePath, outputHtml)
    if conversion.Pending? {
      return NoResponse, actions;
    }
    if conversion.Rejected? {
      return Status(500, "Conversion failed"), actions;
    }
    // parsePdfHtml(outputHtml)
    actions := actions + [ReadHtml(outputHtml)];
    if document.None? {
      return Status(500, "Conversion failed"), actions;
    }
    var blocks := PdfParser.ParsePdfHtml(document.value);
    // fs.unlinkSync(filePath)
    actions := actions + [Unlink(filePath)];
    if !unlinked {
      return Status(500, "Conversion failed"), actions;
    }
    response := Json(blocks);
  }

  /** The handler awaiting an actual converter run: the settlement is the
      one the process's event trace produces. The exit code decides: no
      `close` leaves the request hanging, a non-zero or null code gives the
      500 without reading the output, and code 0 with a readable output and
      a successful deletion gives the blocks. */
  method HandleConvertedUpload(file: StoredFile, events: seq<ProcessEvent>, document: Option<Node>, unlinked: bool)
    returns (response: Response, actions: seq<Action>)
    ensures CloseEvents(events) == [] ==> response == NoResponse && |actions| == 1
    ensures CloseEvents(events) != [] && CloseEvents(events)[0].code != Some(0) ==>
              response == Status(500, "Conversion failed") && |actions| == 1
    ensures CloseEvents(events) != [] && CloseEvents(events)[0].code == Some(0) && document.Some? && unlinked ==>
              response == Json(PdfParser.ExtractBlocks(document.value)) && |actions| == 3
  {
    var htmlPath := OutputPath(file.filename);
    FirstCloseDecides(events, htmlPath);
    var settlement := Settle(Pending, events, htmlPath);
    response, actions := HandleUpload(Some(file), settlement, document, unlinked);
  }

  /** The whole route: multer's intake, then the handler. */
  method UploadRoute(upload: Option<UploadedFile>, timestamp: nat, conversion: Settlement,
                     document: Option<Node>, unlinked: bool)
    returns (response: Response, actions: seq<Action>)
    ensures upload.Some? && upload.value.mimetype != PdfMime ==> response == Forwarded(FilterError) && actions == []
    ensures upload.None? ==> response == Status(400, "No PDF uploaded") && actions == []
    ensures upload.Some? && upload.value.mimetype == PdfMime ==>
              var name := StoredFilename(timestamp, upload.value.originalName);
              |actions| >= 1
              && actions[0] == Convert(ConverterBinary, ["--zoom", "1.3", "1024", "uploads/" + name, "outputs/" + name + ".html"])
    ensures response.Json? <==> upload.Some? && upload.value.mimetype == PdfMime
                                && conversion.Resolved? && document.Some? && unlinked
  {
    var intake := Intake(upload, timestamp);
    if intake.Err? {
      return Forwarded(intake.error), [];
    }
    response, actions := HandleUpload(intake.value, conversion, document, unlinked);
  }
}
