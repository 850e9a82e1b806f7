# File processor: a Dafny model

The repository is a browser page with one component, `FileProcessor`. The
user picks local files and can remove them from the selection one at a time.
The user then asks for them to be processed. Each file's text is split on
line feeds, lines that are empty or whitespace-only are dropped, and the
result is shown per file. If any file cannot be read, an error is shown.

This project models that component's logic:

- `js_string.dfy` (module `JsString`) models the two JavaScript string
  operations the line filter relies on. One is `String.prototype.trim`, with
  the ECMAScript WhiteSpace and LineTerminator characters. The other is
  `String.prototype.split` with a one-character separator, together with its
  inverse `join`.
- `line_filter.dfy` (module `LineFilter`) models `Array.prototype.filter`
  and the per-file content `text.split('\n').filter(line => line.trim().length > 0)`.
  It proves that the output is exactly the order-preserving subsequence of
  the non-blank segments, kept verbatim.
- `file_processor.dfy` (module `FileProcessor`) models the component's state
  (`files`, `processedData`, `error`, `processing`) as an immutable record.
  The three handlers `handleFileUpload`, `removeFile` and `processFiles`
  are pure transitions on it.
  - The browser's `file.text()` is a parameter, a function from a selected
    file to `Ok(text)` or `Fail(thrown value)`.
  - `Promise.all` is a left-to-right fold. It publishes all results in
    selection order or none.
  - A replay of any sequence of user actions, each run settling before the
    next action starts, shows an invariant of the reachable states: results
    on display describe, entry for entry, a prefix of the current selection.
  - That invariant does not survive a selection change while a run is in
    flight. Only the process button is disabled during a run
    (components/FileProcessor.tsx:122); the remove buttons and the file
    input stay live. The run publishes results for the selection it captured
    when it started (lines 50 and 58), so after a mid-run removal the
    results describe the old selection. `InFlightRemovalPublishesStaleResults`
    shows this on two files.

Two behaviours of the code are worth stating plainly:

- Adding files clears the error but keeps the results on display
  (components/FileProcessor.tsx:30-36).
- A failed run keeps the earlier results (components/FileProcessor.tsx:58-60).

`UploadKeepsEarlierResults` and `FailedRunKeepsEarlierResults` show both
behaviours on a two-file example.

## Model

| member | source | states |
|---|---|---|
| JsString.Trim | components/FileProcessor.tsx:54 | `line.trim()` is the piece of the line left once only whitespace lies on either side, neither end of it is whitespace, and it is empty exactly when the whole line is whitespace |
| JsString.Split | components/FileProcessor.tsx:54 | `text.split('\n')` yields at least one segment (the empty text yields one empty segment) and no segment contains a line feed |
| JsString.JoinOfSplit | components/FileProcessor.tsx:54 | splitting loses nothing: the segments joined back with line feeds are the original text |
| JsString.SplitOfJoin | components/FileProcessor.tsx:54 | splitting invents nothing: line-feed-free segments joined with line feeds split back into exactly those segments |
| LineFilter.KeptIsTrimTest | components/FileProcessor.tsx:54 | the filter's test `line.trim().length > 0` holds exactly when the line has a character outside the whitespace set |
| LineFilter.Filter | components/FileProcessor.tsx:54 | `Array.prototype.filter` returns no more elements than it is given, and every element it returns passes the test |
| LineFilter.FilterIsSubsequence | components/FileProcessor.tsx:54 | the filter's output is the input read at a strictly increasing list of positions, and that list holds exactly the positions whose element passes |
| LineFilter.FilterIsUnique | components/FileProcessor.tsx:54 | any sequence that is the input read at exactly its passing positions, in increasing order, equals the filter's output |
| LineFilter.FilterCharacterization | components/FileProcessor.tsx:54 | both directions together: a sequence is the filter's output if and only if it is the order-preserving subsequence of the passing elements |
| LineFilter.Content | components/FileProcessor.tsx:54 | a file's `content` has no more lines than the text has line-feed-separated segments, and every line in it has a non-empty trim |
| LineFilter.ContentLines | components/FileProcessor.tsx:54 | every line of a file's `content` has a non-empty trim, a visible character and no line feed, and `content` is the order-preserving, untrimmed subsequence of the split segments with a non-empty trim |
| LineFilter.ContentOfJoin | components/FileProcessor.tsx:54 | the content of line-feed-free lines joined with line feeds is those lines filtered by the trim test |
| LineFilter.BlankTextHasNoContent | components/FileProcessor.tsx:51-54 | a text with no visible character, the empty text included, yields an empty `content` |
| LineFilter.BlankLinesDropped | components/FileProcessor.tsx:54 | for the lines `a`, ``, two spaces, `b`, tab the content is `["a", "b"]` |
| LineFilter.CarriageReturnsKept | components/FileProcessor.tsx:54 | for CRLF text `a\r\n\r\nb` the content is `["a\r", "b"]`: the carriage return stays on a non-blank line and a lone carriage return is dropped |
| FileProcessor.Initial | components/FileProcessor.tsx:25-28 | a freshly mounted component has no files, no results, no error and no run in flight |
| FileProcessor.HandleFileUpload | components/FileProcessor.tsx:30-36 | with a file list, the selection becomes the old selection followed by the new files in their given order, the error becomes null, and the results and busy flag are unchanged; without a file list nothing changes |
| FileProcessor.UploadsAccumulate | components/FileProcessor.tsx:30-36 | after any number of uploads the selection is the old selection followed by all batches in call order, and the results and busy flag are unchanged; after at least one upload the error is null |
| FileProcessor.DropPosition | components/FileProcessor.tsx:39 | filtering out position `index` gives `xs[..index] + xs[index+1..]` when `index` is a position of `xs`, and `xs` itself otherwise |
| FileProcessor.RemoveFile | components/FileProcessor.tsx:38-42 | an in-range index removes exactly that file, the rest keep their order and the selection is one shorter; an out-of-range index leaves the selection unchanged; in every case results and error become null |
| FileProcessor.AwaitAll | components/FileProcessor.tsx:49-57 | the fan-in succeeds exactly when every read succeeds, and then entry `k` is file `k`'s name with its filtered lines; otherwise it carries the rejection of the first failing read and no results |
| FileProcessor.ProcessOne | components/FileProcessor.tsx:50-56 | one mapped promise succeeds exactly when the file's read succeeds, and then pairs the file's name with the filtered lines of its text; otherwise it rejects with the read's reason |
| FileProcessor.MessageOf | components/FileProcessor.tsx:60 | the error shown is the `Error`'s own message, or the non-empty default text for any other thrown value |
| FileProcessor.Settle | components/FileProcessor.tsx:58-62 | settling lowers the busy flag and leaves the selection alone; success publishes the results and leaves the error, failure leaves the results and shows the rejection's message |
| FileProcessor.StartRun | components/FileProcessor.tsx:45-46 | a run raises the busy flag and clears the error before any read |
| FileProcessor.ProcessFiles | components/FileProcessor.tsx:44-64 | on success the results are one entry per selected file in selection order and the error is null; on failure the earlier results are untouched and the error is the failure's message or the default text; the busy flag is down on both paths; an empty selection succeeds with no entries |
| FileProcessor.StepKeepsResultsDescribingPrefix | components/FileProcessor.tsx:30-64 | with a run taken as one transition, every handler keeps the results on display describing, in order, a prefix of the selection, and keeps the busy flag down between actions |
| FileProcessor.ReplayKeepsResultsDescribingPrefix | components/FileProcessor.tsx:25-64 | from any state whose results describe a prefix of the selection with no run in flight, every sequence of actions keeps both facts |
| FileProcessor.ReachableStatesAreConsistent | components/FileProcessor.tsx:25-64 | from the initial state, after any sequence of uploads, removals and runs in which no action falls inside a run in flight, the results on display describe a prefix of the selection and no run is in flight |
| FileProcessor.UploadKeepsEarlierResults | components/FileProcessor.tsx:30-36 | uploading after a successful run keeps the earlier, now shorter, results on display |
| FileProcessor.FailedRunKeepsEarlierResults | components/FileProcessor.tsx:58-60 | a failed run shows its error next to the earlier results instead of clearing them |
| FileProcessor.InFlightRemovalPublishesStaleResults | components/FileProcessor.tsx:38-58 | removing the first of two files while a run is in flight leaves one file selected and two published results, the first for the removed file, so the results no longer describe a prefix of the selection |

## Left out

- Rendering (components/FileProcessor.tsx:66-157): the card, tabs, alert, icons and the `JSON.stringify` display are presentation. So is `app/layout.tsx`, which holds page metadata and layout, and `app/page.tsx`, which mounts the component.
- Decoding inside `file.text()` is a browser call and is not modelled. It is the `read` parameter. The model reads it as a fixed function, so a file whose contents change on disk between two runs is not modelled.
- `Promise.all` concurrency and scheduling are not modelled, only the observable result: all results in selection order, or one rejection.
- ProcessFiles: when several reads fail, the model reports the failure at the lowest position. The browser reports the rejection that settles first in time, which depends on scheduling the model does not include.
- React's deferred state updates: each handler's updates apply together as one transition. The trace model `Replay` takes a run as one transition from start to settlement. Interleavings of a run with uploads or removals are not part of `Replay`. In the code, such a run publishes the results for the selection it captured, which `InFlightRemovalPublishesStaleResults` shows for one interleaving.
- The `disabled={processing}` attribute on the process button (line 122) is user-interface enablement, not a lock, and is not modelled. The same goes for that button only being rendered while the selection is non-empty. The model still processes an empty selection, as the handler itself allows.
- `removeFile` receives a JavaScript number. The model takes an integer. A fractional or NaN index matches no position, so the code treats it like an out-of-range one.
- Strings are sequences of code points, not UTF-16 code units. This makes no difference to the characters `trim` and `split('\n')` inspect.
- An `Error` whose message is empty is stored as `""`, and the alert then does not render. That is presentation.
