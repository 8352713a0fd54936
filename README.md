# pdf2read: a verified model of the PDF-to-blocks pipeline

pdf2read takes a PDF that a user drops on a web page. The backend runs the
`pdf2htmlEX` converter on it, walks the HTML it produces, and returns a list
of content blocks: paragraphs, images and tables. The PDF itself is viewed
with page navigation and a choice of canvas colours. This project models
the four parts of that code that hold logic:

- **Block extractor** (`backend/utils/pdfParser.ts`, module `PdfParser`).
  - The parsed document is an element tree (`Html.Node`).
  - Sanitising is a pure function. It drops `style`, `link` and `script`
    elements and strips the `style` and `class` attributes.
  - `ParsePdfHtml` is the `.each` loop over the pre-order walk of the
    body's descendants. It is proved to compute the specification
    `ExtractBlocks`.
  - Lemmas prove the ordering, filtering and duplication rules.
  - Supporting modules: `Strings` (JavaScript `trim` whitespace, ASCII
    lower-casing, decimal rendering) and `Html` (text content, pre-order
    descendants).
- **Conversion adapter and upload route** (`backend/index.ts`, module
  `Server`).
  - The converter's argument vector.
  - The `close`-code settlement of the conversion promise: a
    settle-once fold over process events, and the `ConverterRun` class
    for the listeners.
  - The stored filename and the paths.
  - The MIME filter.
  - The `/upload` handler as a method over the stage outcomes.
- **Upload validation** (`components/pdf-upload.tsx`, module `PdfUpload`).
  - The dropzone limits.
  - `onDrop` as a method on a widget that holds the `error` state and the
    files passed to `onFileUpload`.
- **Viewer state** (`frontend/components/pdf/pdf-viewer.tsx`, module
  `PdfViewer`).
  - The disabled predicates, the width breakpoint and the theme mapping
    are functions.
  - The component's state variables are the class `Viewer`.

I/O is an input everywhere:
- the converter's exit code and output events;
- whether reading the output file succeeds, given as the parsed document or
  nothing;
- whether deleting the upload succeeds;
- the upload time stamp;
- the window width;
- the page theme.

Behaviours of the code worth noting, all captured by the model:

- A failed `fs.unlinkSync` is inside the handler's `try`, so it turns a
  successful conversion into a 500 (`Server.HandleUpload`).
- `text()` takes in the whole subtree. So a `div` holding a `p`, an `img`
  and a `table` gives a paragraph of the trimmed text of the whole
  subtree, table text included. The `p`, the image and the table follow it
  (`PdfParser.MixedContentExample`).
- An `img` with no `src` gives an image block whose `src` is absent
  (`undefined`), not the empty string.
- The filter's error says "Only PDF and DOCX files are allowed!", but only
  `application/pdf` passes it.

## Model

| member | source | states |
|---|---|---|
| `Strings.TrimStart` | backend/utils/pdfParser.ts:23 | The result is a suffix of the input. Only JavaScript whitespace is removed, and the result does not start with whitespace. |
| `Strings.TrimEnd` | backend/utils/pdfParser.ts:23 | The result is a prefix of the input. Only whitespace is removed, and the result does not end with whitespace. |
| `Strings.Trim` | backend/utils/pdfParser.ts:23 | `trim()` never lengthens its input, and a non-empty result does not end in whitespace. |
| `Strings.TrimSlice` | backend/utils/pdfParser.ts:23 | `trim()` gives a trimmed slice of its input with only whitespace outside it. |
| `Strings.TrimEmptyIff` | backend/utils/pdfParser.ts:23-25 | The trimmed text is empty exactly when the text is all whitespace. This is the `!text` test. |
| `Strings.TrimIdempotent` | backend/utils/pdfParser.ts:23 | Trimming twice is trimming once. |
| `Strings.Lower` | backend/utils/pdfParser.ts:22 | `toLowerCase` keeps the length and maps each character to its ASCII lower case. |
| `Strings.NatToString` | backend/index.ts:21 | Decimal rendering is non-empty, all digits, and has no leading zero. |
| `Strings.ParseNatToString` | backend/index.ts:21 | Reading a rendered number back gives the number. |
| `Html.AttrValue` | backend/utils/pdfParser.ts:30 | `attr(name)` is absent iff no attribute has the name. Otherwise it is the value of the first attribute with that name. |
| `Html.TextContent` | backend/utils/pdfParser.ts:23 | `text()` of a text node is its data. An element's text is that of its children (see `Html.ForestTextAppend`). |
| `Html.ForestText` | backend/utils/pdfParser.ts:23 | The text of no nodes is empty. Adjacent forests concatenate (`Html.ForestTextAppend`). |
| `Html.Descendants` | backend/utils/pdfParser.ts:21 | The pre-order walk yields elements only. |
| `Html.DescendantsAppend` | backend/utils/pdfParser.ts:21 | The walk of two forests is the walk of the first, then the walk of the second. |
| `Html.ForestTextAppend` | backend/utils/pdfParser.ts:23 | The text of two forests is the concatenation of their texts. |
| `PdfParser.StripAttrs` | backend/utils/pdfParser.ts:17 | No `style` or `class` attribute is left, and the list never grows. |
| `PdfParser.StripAttrsKeepsValues` | backend/utils/pdfParser.ts:17 | Every other attribute reads the same after stripping. |
| `PdfParser.SanitizeForest` | backend/utils/pdfParser.ts:16-17 | Sanitising never adds nodes, and no remaining child is a `style`, `link` or `script` element. |
| `PdfParser.SanitizeNode` | backend/utils/pdfParser.ts:16-17 | A kept element keeps its tag, loses only the stripped attributes and has its children sanitised. A text node is untouched. |
| `PdfParser.SanitizeForestClean` | backend/utils/pdfParser.ts:16-17 | After sanitising, no removed element and no stripped attribute remains at any depth. |
| `PdfParser.SanitizeNodeClean` | backend/utils/pdfParser.ts:16-17 | A kept node is clean after sanitising, at every depth. |
| `PdfParser.StripAttrsClean` | backend/utils/pdfParser.ts:17 | An attribute list with no `style` or `class` is left as it is. |
| `PdfParser.StripAttrsAppend` | backend/utils/pdfParser.ts:17 | Stripping two adjacent attribute lists separately gives the stripped whole. |
| `PdfParser.StripAttrsOrder` | backend/utils/pdfParser.ts:17 | Stripping works attribute by attribute: it distributes over concatenation and keeps a non-stripped attribute in place, so the kept attributes keep their order. |
| `PdfParser.SanitizeCleanIdentity` | backend/utils/pdfParser.ts:16-17 | A clean forest comes back unchanged. |
| `PdfParser.SanitizeNodeCleanIdentity` | backend/utils/pdfParser.ts:16-17 | A clean node is not removed and is left unchanged. |
| `PdfParser.SanitizeIdempotent` | backend/utils/pdfParser.ts:16-17 | Sanitising twice is sanitising once. |
| `PdfParser.SanitizeForestAppend` | backend/utils/pdfParser.ts:16 | Sanitising works sibling by sibling. |
| `PdfParser.SanitizeSingleton` | backend/utils/pdfParser.ts:16-17 | A removed element alone sanitises to nothing. Any other node is kept as its sanitised self. |
| `PdfParser.RemovedLeavesNoTrace` | backend/utils/pdfParser.ts:16 | A removed element among siblings sanitises exactly as if it were absent. |
| `PdfParser.RemovedAtAnyDepth` | backend/utils/pdfParser.ts:16 | The same holds at any depth inside the forest. |
| `PdfParser.CleanDescendants` | backend/utils/pdfParser.ts:16-21 | Every element visited in a clean forest is clean. |
| `PdfParser.FilterMapAppend` | backend/utils/pdfParser.ts:21-34 | Selecting over two sequences is selecting over each, in order. |
| `PdfParser.Positions` | backend/utils/pdfParser.ts:21-34 | There is one selected position per selected item. |
| `PdfParser.PositionsSound` | backend/utils/pdfParser.ts:21-34 | The k-th block comes from the element at the k-th selected position. |
| `PdfParser.PositionsIncreasing` | backend/utils/pdfParser.ts:21-34 | Selected positions strictly increase, so blocks keep document order. |
| `PdfParser.PositionsComplete` | backend/utils/pdfParser.ts:21-34 | Every element that classifies as a block is selected. |
| `PdfParser.BlocksOf` | backend/utils/pdfParser.ts:21-34 | At most one block per visited element (see `PdfParser.BlocksOfIsFilterMap` and the position lemmas). |
| `PdfParser.BlocksOfIsFilterMap` | backend/utils/pdfParser.ts:21-34 | The loop's block list is the ordered selection of `Classify` over the visited elements. |
| `PdfParser.BlocksOfOne` | backend/utils/pdfParser.ts:21-34 | One more visited element appends at most its own block. |
| `PdfParser.Visited` | backend/utils/pdfParser.ts:16-21 | The walk visits only elements: the pre-order descendants of the sanitised body, never the body itself. |
| `PdfParser.ExtractBlocks` | backend/utils/pdfParser.ts:19-36 | There are never more blocks than visited elements. |
| `PdfParser.ClassifyElement` | backend/utils/pdfParser.ts:22-33 | The callback pushes exactly the block `Classify` assigns to the element, or nothing. |
| `PdfParser.CollectBlocks` | backend/utils/pdfParser.ts:19-34 | The loop over the selected elements returns exactly their blocks, in order. |
| `PdfParser.ParsePdfHtml` | backend/utils/pdfParser.ts:11-37 | The loop over the pre-order descendants of the sanitised body returns exactly `ExtractBlocks(body)`. |
| `PdfParser.VisitedAreClean` | backend/utils/pdfParser.ts:16-17 | No visited element, table markup included, contains a `style`, `link` or `script` element or a `style` or `class` attribute. |
| `PdfParser.RemovedElementIgnored` | backend/utils/pdfParser.ts:16 | A `style`, `link` or `script` element at any depth under the body changes nothing in the output: the blocks are those of the body without it, so its text and markup reach no block. |
| `PdfParser.ClassifyCases` | backend/utils/pdfParser.ts:22-33 | An `img` always gives an image with its `src` or none. A blank non-`img` gives nothing. `p`/`div`/`span` give a paragraph of the trimmed text. A `table` with text gives a table. Other tags give nothing. Tags are compared lower-cased. |
| `PdfParser.ExtractOrder` | backend/utils/pdfParser.ts:19-36 | The blocks are an increasing selection of the visited elements. So there are at most as many blocks as visited elements, and every element that classifies is included. |
| `PdfParser.ClassifiedBlockFacts` | backend/utils/pdfParser.ts:23-33 | A paragraph's text is non-empty and trimmed. A table is a clean `table` subtree with text. |
| `PdfParser.ExtractedBlocksWellFormed` | backend/utils/pdfParser.ts:21-34 | Every block comes from a clean visited element. Paragraphs are non-empty and trimmed. Tables are clean `table` subtrees with text. |
| `PdfParser.EmptyBodyNoBlocks` | backend/utils/pdfParser.ts:19-36 | An empty body gives an empty list. |
| `PdfParser.DivWrappingParagraph` | backend/utils/pdfParser.ts:22-28 | `div > p "A"` gives two paragraphs `A`. |
| `PdfParser.MixedContentExample` | backend/utils/pdfParser.ts:21-34 | A `div` holding `p`, `img` and `table` gives the div's paragraph with the text of the whole subtree, then the p, the image and the table, in document order. |
| `PdfParser.ImageOnlyTableExample` | backend/utils/pdfParser.ts:25-31 | A table with only an image gives no table block, only the image's, with `src` absent. |
| `Server.ConverterArgs` | backend/index.ts:77-83 | Five arguments: the fixed `--zoom 1.3 1024`, then the PDF path, then the HTML path. |
| `Server.ConverterArgsShape` | backend/index.ts:77-83 | The argument vector is `--zoom 1.3 1024 <pdf> <html>`. The paths can be read back from it, and a vector of that shape is the one built from them. |
| `Server.CodeText` | backend/index.ts:97 | The code renders as non-empty text: digits for a non-negative code, a leading `-` for a negative one (`null` when absent). |
| `Server.ExitMessage` | backend/index.ts:97 | The message is `pdf2htmlEX exited with code ` followed by the code. |
| `Server.CloseOutcome` | backend/index.ts:93-99 | The promise resolves with the HTML path iff the code is exactly 0. Otherwise it rejects with the exit message. |
| `Server.ParseNonNegativeCode` | backend/index.ts:97 | A non-negative code reads back from its decimal rendering. |
| `Server.ParseNegativeCode` | backend/index.ts:97 | A negative code reads back from its `-`-prefixed rendering. |
| `Server.ExitMessageNamesCode` | backend/index.ts:97 | The rejection message names the code, `null` included, and the code can be read back from it. |
| `Server.Step` | backend/index.ts:93-99 | Data events and anything after settling leave the promise as it is. A `close` settles a pending promise. |
| `Server.Settle` | backend/index.ts:85-99 | A trace leaves the promise pending only if it started pending and holds no `close`. |
| `Server.CloseEvents` | backend/index.ts:85-99 | Only `close` events are kept. |
| `Server.DataNeverDecides` | backend/index.ts:85-91 | stdout and stderr output never changes how the promise settles. |
| `Server.SettledStays` | backend/index.ts:93-99 | A settled promise never changes. |
| `Server.FirstCloseDecides` | backend/index.ts:93-99 | The promise is pending until the first `close`. That event alone decides resolve or reject. |
| `Server.ConverterRun.constructor` | backend/index.ts:76-83 | The converter is spawned as `./bin/pdf2htmlEX` with the fixed argument vector. The promise is pending. |
| `Server.ConverterRun.OnStdout` | backend/index.ts:85-87 | Data is logged as `stdout: ...` and the settlement is unchanged. |
| `Server.ConverterRun.OnStderr` | backend/index.ts:89-91 | Data is logged as `stderr: ...` and the settlement is unchanged. |
| `Server.ConverterRun.OnClose` | backend/index.ts:93-99 | The settlement takes one settle-once step. |
| `Server.ConverterRun.Deliver` | backend/index.ts:85-99 | Each event reaches its listener. The state follows `Step` and `LogOf`. |
| `Server.FileFilter` | backend/index.ts:25-37 | It accepts iff the MIME type is exactly `application/pdf`. Otherwise it fails with the filter's message. |
| `Server.StoredFilename` | backend/index.ts:21 | The stored name is the decimal timestamp, a dash, then the original name. |
| `Server.StoredFilenameRoundTrip` | backend/index.ts:20-22 | `<timestamp>-<originalname>` splits back into the timestamp and the original name. |
| `Server.UploadPath` | backend/index.ts:15-22 | The upload is stored as `uploads/<stored name>`. |
| `Server.OutputPath` | backend/index.ts:54 | The output is `outputs/<stored name>.html`. |
| `Server.PathsDistinguishUploads` | backend/index.ts:54 | The output path is `outputs/<name>.html`. Distinct stored names give distinct upload and output paths. |
| `Server.Intake` | backend/index.ts:20-37 | Without a file the handler sees none. A refused MIME type stops with the filter's error. An accepted file is stored as `uploads/<timestamp>-<name>`. |
| `Server.HandleUpload` | backend/index.ts:49-69 | No file gives 400 and starts nothing. Otherwise the converter is started first. On success the actions are exactly convert, read the output, delete the upload, and the JSON holds the extracted blocks. JSON is sent iff every stage succeeded. A pending conversion never answers. A rejected conversion starts nothing more. A failed read stops before the deletion, and a failed deletion comes after the read. Every failure after the conversion gives 500 "Conversion failed". |
| `Server.HandleConvertedUpload` | backend/index.ts:49-99 | With the settlement taken from the process's events: no `close` leaves the request hanging. A first close code other than 0, null included, gives 500 without reading the output. Code 0 with a readable output and a successful deletion gives the blocks after three actions. |
| `Server.UploadRoute` | backend/index.ts:20-69 | Multer's intake, then the handler. The converter runs on `uploads/<stored>` and `outputs/<stored>.html`. |
| `PdfUpload.DropOutcome` | components/pdf-upload.tsx:16-37 | Any rejection wins, with "Please upload a valid PDF file". At most one file, the first accepted, is uploaded. It is uploaded iff nothing is rejected and it is at most 52,428,800 bytes. A larger first file gives "File size must be less than 50MB". An empty drop uploads nothing and clears the error. |
| `PdfUpload.PdfUploadWidget.constructor` | components/pdf-upload.tsx:14 | The error starts null and nothing is uploaded. |
| `PdfUpload.PdfUploadWidget.OnDrop` | components/pdf-upload.tsx:16-37 | The error is cleared first, so the new error does not depend on the old one. The uploads grow by exactly the drop's outcome. |
| `PdfViewer.ScaleFor` | frontend/components/pdf/pdf-viewer.tsx:51-61 | Widths below 640, from 640 to below 1024, and from 1024 up give the small, medium and large scales. These three buckets cover every width. |
| `PdfViewer.ScaleMonotone` | frontend/components/pdf/pdf-viewer.tsx:54-60 | A wider window never gets a smaller scale. |
| `PdfViewer.PreviousDisabled` | frontend/components/pdf/pdf-viewer.tsx:115 | Previous is disabled iff the page is at most 1. |
| `PdfViewer.NextDisabled` | frontend/components/pdf/pdf-viewer.tsx:127 | Next is disabled iff the page is at least the total. A `null` total counts as 0. |
| `PdfViewer.Click` | frontend/components/pdf/pdf-viewer.tsx:38-48 | A disabled button leaves the page. An enabled one moves it by one. |
| `PdfViewer.Clicks` | frontend/components/pdf/pdf-viewer.tsx:112-131 | Each click moves the page by at most one. |
| `PdfViewer.InRange` | frontend/components/pdf/pdf-viewer.tsx:115-127 | With a positive total, a page is in range iff 1 ≤ page ≤ total. Otherwise only page 1 is. |
| `PdfViewer.ClicksStayInRange` | frontend/components/pdf/pdf-viewer.tsx:112-131 | Clicking only enabled buttons keeps 1 ≤ page ≤ total, or page 1 while there is no positive total. |
| `PdfViewer.NothingEnabledBeforeLoad` | frontend/components/pdf/pdf-viewer.tsx:29-30 | Before load, at page 1, no click moves the page. |
| `PdfViewer.NextReachesLastPage` | frontend/components/pdf/pdf-viewer.tsx:124-131 | From page p of n, n − p clicks on next reach page n, where next is disabled. |
| `PdfViewer.PageCaption` | frontend/components/pdf/pdf-viewer.tsx:121-122 | A non-zero page shows its number and a page 0 shows `1` once a total is loaded, `--` before that. A total of `null` or 0 shows as `--`. |
| `PdfViewer.SwatchKeysDistinct` | frontend/components/pdf/pdf-viewer.tsx:87-93 | The swatch backgrounds, used as keys, are pairwise distinct. |
| `PdfViewer.ThemeColours` | frontend/components/pdf/pdf-viewer.tsx:23-28 | "dark" gives `#171717`/`#ffffff`. Any other theme, or none, gives `#ffffff`/"". |
| `PdfViewer.ThemeColoursAreSwatches` | frontend/components/pdf/pdf-viewer.tsx:68-93 | The theme's colours are always those of a swatch. |
| `PdfViewer.ToggledTheme` | frontend/components/pdf/pdf-viewer.tsx:154-156 | The toggle asks for light iff the theme is dark. |
| `PdfViewer.ToggleFlipsColours` | frontend/components/pdf/pdf-viewer.tsx:154-156 | Toggling gives the dark colours iff the theme was not dark. Two toggles return to dark or to light. |
| `PdfViewer.Viewer.constructor` | frontend/components/pdf/pdf-viewer.tsx:22-31 | Colours come from the theme. There is no total, the page is 1, the scale is 1, and the state is in range. |
| `PdfViewer.Viewer.OnDocumentLoadSuccess` | frontend/components/pdf/pdf-viewer.tsx:33-36 | The total is the page count and the page is 1. Nothing else changes. |
| `PdfViewer.Viewer.ChangePage` | frontend/components/pdf/pdf-viewer.tsx:38-40 | The page moves by the offset, unclamped. |
| `PdfViewer.Viewer.PreviousPage` | frontend/components/pdf/pdf-viewer.tsx:42-44 | The page goes down by one, unclamped. |
| `PdfViewer.Viewer.NextPage` | frontend/components/pdf/pdf-viewer.tsx:46-48 | The page goes up by one, unclamped. |
| `PdfViewer.Viewer.ClickButton` | frontend/components/pdf/pdf-viewer.tsx:112-131 | A click follows `Click` and keeps the page in range. |
| `PdfViewer.Viewer.HandleResize` | frontend/components/pdf/pdf-viewer.tsx:51-61 | The scale is `ScaleFor(width)`. Nothing else changes. |
| `PdfViewer.Viewer.OnThemeChange` | frontend/components/pdf/pdf-viewer.tsx:68-76 | The colours are `ThemeColours` of the new theme. |
| `PdfViewer.Viewer.ToggleTheme` | frontend/components/pdf/pdf-viewer.tsx:152-157 | The theme becomes the toggled one, and the colours follow it. |
| `PdfViewer.Viewer.PickSwatch` | frontend/components/pdf/pdf-viewer.tsx:137-146 | The canvas and text colours become the swatch's `bg` and `text`. Nothing else changes. |

## Left out

- HTML parsing and serialisation (cheerio): the document is given as a
  tree. A table block holds the sanitised subtree that `$.html(el)`
  would serialise, not the markup text.
- In-place mutation of the loaded document: `.remove()` and `.removeAttr`
  are modelled as a sanitised copy of the tree, which is all the later walk
  observes.
- Case folding: `toLowerCase` is modelled for ASCII letters only.
- File-system I/O:
  - reading the converter output is an input: a parsed document, or
    nothing when the read throws;
  - deleting the upload is a success flag;
  - creating `outputs/` and multer's disk writes are not modelled, and
    neither is a failed write.
- Spawning the child process: the converter's events are an input trace.
  A spawn failure is not captured: a missing or non-executable
  `./bin/pdf2htmlEX` makes the child process emit `error`. The code
  registers no listener for it, so Node throws it as an uncaught exception
  and the server process ends. There is no rejection and no 500 from the
  handler's `catch`.
- Express and cors setup, static serving and `app.listen`: server plumbing
  around the route. Multer's forwarding of the filter error to Express is
  modelled only as the `Forwarded` response.
- `path.join` normalisation: paths are concatenated, which matches `join`
  for names without `/`, `..` or `.` segments.
- Clocks: `Date.now()` is the `timestamp` parameter.
- Console output: `console.log` of dropped files and the error log on a
  failed conversion are not modelled (the process data lines are).
- React rendering, JSX and CSS, react-pdf's `Document`/`Page`, the pdf.js
  worker and react-dropzone's own sorting of files into accepted and
  rejected. The dropzone options are constants; the handler gets the two
  lists as inputs.
- PdfViewer.ScaleFor: the scale values 0.6, 0.9 and 1.1 are floating
  point and become the enum `Small`/`Medium`/`Large`.
- `window` resize listener registration and removal: `HandleResize` takes
  the width of each call.
- app/page.tsx: it only switches between the upload and viewer screens.
