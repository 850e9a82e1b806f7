/**
 The view state of the file processor component and its three handlers,
 as pure transitions on an immutable record.

 The browser's `file.text()` is a parameter, `read`, that settles each
 file to its text or to the value it was rejected with. The model reads it
 as a fixed function, so the same file always reads the same way.
 `Promise.all` over the mapped reads becomes a left-to-right fold that
 keeps the selection order and stops at the first failure.
 */
module FileProcessor {
  import opened LineFilter

  /** A nullable state field: `null` or a value. */
  datatype Option<T> = None | Some(value: T)

  /** What a rejected read can carry: an `Error` object, whose message is
      shown, or any other thrown value. */
  datatype Thrown = ErrorObject(message: string) | OtherValue

  /** The settled outcome of a promise. */
  datatype Settled<T> = Ok(value: T) | Fail(reason: Thrown)

  /** A browser `File`: its name and the handle its contents are read through. */
  datatype SelectedFile = SelectedFile(name: string, handle: nat)

  /** One entry of the published results. */
  datatype ProcessedFile = ProcessedFile(name: string, content: seq<string>)

  /** The component's four pieces of state. */
  datatype State = State(
    files: seq<SelectedFile>,
    processedData: Option<seq<ProcessedFile>>,
    error: Option<string>,
    processing: bool)

  /** `file.text()`, supplied by the browser. */
  type TextReader = SelectedFile -> Settled<string>

  /** The message shown when the thrown value is not an `Error`. */
  const DefaultErrorMessage: string := "An error occurred while processing files"

  /** The state a freshly mounted component starts in: nothing selected,
      nothing shown, no error and no run in flight. */
  function Initial(): (r: State)
    ensures |r.files| == 0 && r.processedData.None? && r.error.None? && !r.processing
  {
    State([], None, None, false)
  }

  /** `handleFileUpload`: when the input carries a file list, its files go
      to the end of the selection in their given order and the error is
      cleared; results on display are kept. Without a file list nothing
      changes. */
  function HandleFileUpload(s: State, picked: Option<seq<SelectedFile>>): (r: State)
    ensures picked.None? ==> r == s
    ensures picked.Some? ==> r.files == s.files + picked.value && r.files[..|s.files|] == s.files
    ensures picked.Some? ==> r.error == None && r.processedData == s.processedData && r.processing == s.processing
  {
    match picked
    case None => s
    case Some(uploaded) => s.(files := s.files + uploaded, error := None)
  }

  /** `xs.filter((_, i) => i !== index)`: the elements at every position
      other than `index`, in order. */
  function DropPosition<T>(xs: seq<T>, index: int): (ys: seq<T>)
    ensures 0 <= index < |xs| ==> ys == xs[..index] + xs[index + 1..]
    ensures !(0 <= index < |xs|) ==> ys == xs
  {
    if |xs| == 0 then []
    else
      var last := |xs| - 1;
      var init := DropPosition(xs[..last], index);
      assert 0 <= index < last ==> xs[..last][..index] + xs[..last][index + 1..] + [xs[last]] == xs[..index] + xs[index + 1..];
      assert xs[..last] + [xs[last]] == xs;
      if last == index then init else init + [xs[last]]
  }

  /** `removeFile`: the file at `index` leaves the selection and the others
      close up in order; an index outside the selection leaves it as it is.
      Either way the results and the error are cleared. */
  function RemoveFile(s: State, index: int): (r: State)
    ensures 0 <= index < |s.files| ==> r.files == s.files[..index] + s.files[index + 1..]
    ensures 0 <= index < |s.files| ==> |r.files| == |s.files| - 1
    ensures !(0 <= index < |s.files|) ==> r.files == s.files
    ensures r.processedData == None && r.error == None && r.processing == s.processing
  {
    s.(files := DropPosition(s.files, index), processedData := None, error := None)
  }

  /** One mapped promise of `processFiles`: read the file, then pair its
      name with its filtered lines. */
  function ProcessOne(file: SelectedFile, read: TextReader): (r: Settled<ProcessedFile>)
    ensures r.Ok? <==> read(file).Ok?
    ensures r.Ok? ==> r.value.name == file.name && r.value.content == Content(read(file).value)
    ensures r.Fail? ==> r.reason == read(file).reason
  {
    match read(file)
    case Ok(text) => Ok(ProcessedFile(file.name, Content(text)))
    case Fail(thrown) => Fail(thrown)
  }

  /** `k` is the first position whose read fails. */
  ghost predicate FirstFailure(files: seq<SelectedFile>, read: TextReader, k: int) {
    && 0 <= k < |files|
    && read(files[k]).Fail?
    && forall j :: 0 <= j < k ==> read(files[j]).Ok?
  }

  /** `Promise.all(files.map(...))`: every file's result in selection
      order when all reads succeed, otherwise the rejection of the first
      failing read and no results at all. */
  function AwaitAll(files: seq<SelectedFile>, read: TextReader): (r: Settled<seq<ProcessedFile>>)
    ensures r.Ok? <==> forall k :: 0 <= k < |files| ==> read(files[k]).Ok?
    ensures r.Ok? ==> |r.value| == |files|
    ensures r.Ok? ==> forall k :: 0 <= k < |files| ==>
      r.value[k] == ProcessedFile(files[k].name, Content(read(files[k]).value))
    ensures r.Fail? ==> exists k :: FirstFailure(files, read, k) && r.reason == read(files[k]).reason
  {
    if |files| == 0 then Ok([])
    else
      match ProcessOne(files[0], read)
      case Fail(thrown) =>
        assert FirstFailure(files, read, 0);
        Fail(thrown)
      case Ok(head) =>
        var rest := AwaitAll(files[1..], read);
        assert forall k :: 1 <= k < |files| ==> files[k] == files[1..][k - 1];
        match rest
        case Fail(thrown) =>
          assert exists k :: FirstFailure(files, read, k) && thrown == read(files[k]).reason by {
            var k :| FirstFailure(files[1..], read, k) && thrown == read(files[1..][k]).reason;
            assert FirstFailure(files, read, k + 1);
          }
          Fail(thrown)
        case Ok(tail) => Ok([head] + tail)
  }

  /** The text shown for a rejection: the `Error`'s message, or the
      default, which is never empty. */
  function MessageOf(thrown: Thrown): (m: string)
    ensures thrown.ErrorObject? ==> m == thrown.message
    ensures thrown.OtherValue? ==> m == DefaultErrorMessage && |m| > 0
  {
    match thrown
    case ErrorObject(message) => message
    case OtherValue => DefaultErrorMessage
  }

  /** The start of `processFiles`: the busy flag goes up and the error is
      cleared, with the selection and the results untouched. */
  function StartRun(s: State): (r: State)
    ensures r.processing && r.error == None
    ensures r.files == s.files && r.processedData == s.processedData
  {
    s.(processing := true, error := None)
  }

  /** The end of `processFiles`: publish the results or report the
      rejection, then lower the busy flag. The selection in place at that
      moment is neither consulted nor changed, so results computed from an
      earlier selection are published as they are. */
  function Settle(s: State, outcome: Settled<seq<ProcessedFile>>): (r: State)
    ensures r.files == s.files && !r.processing
    ensures outcome.Ok? ==> r.processedData == Some(outcome.value) && r.error == s.error
    ensures outcome.Fail? ==> r.processedData == s.processedData && r.error == Some(MessageOf(outcome.reason))
  {
    match outcome
    case Ok(results) => s.(processedData := Some(results), processing := false)
    case Fail(thrown) => s.(error := Some(MessageOf(thrown)), processing := false)
  }

  /** `processFiles` from start to settlement. On success the results are
      one entry per selected file, in selection order, and no error is
      shown. On failure the earlier results stay as they were and the error
      is the message of a failing read (the first one). The busy flag is
      down afterwards on both paths. */
  function ProcessFiles(s: State, read: TextReader): (r: State)
    ensures r.files == s.files && !r.processing
    ensures (forall k :: 0 <= k < |s.files| ==> read(s.files[k]).Ok?) ==>
      && r.error == None
      && r.processedData.Some?
      && |r.processedData.value| == |s.files|
      && forall k :: 0 <= k < |s.files| ==>
           r.processedData.value[k] == ProcessedFile(s.files[k].name, Content(read(s.files[k]).value))
    ensures (exists k :: 0 <= k < |s.files| && read(s.files[k]).Fail?) ==>
      && r.processedData == s.processedData
      && exists k :: FirstFailure(s.files, read, k) &&
           r.error == Some(match read(s.files[k]).reason
                           case ErrorObject(message) => message
                           case OtherValue => DefaultErrorMessage)
    ensures |s.files| == 0 ==> r.processedData == Some([]) && r.error == None
  {
    Settle(StartRun(s), AwaitAll(s.files, read))
  }

  /** A user action on the component. */
  datatype Event = Upload(picked: Option<seq<SelectedFile>>) | Remove(index: int) | Process

  /** The handler an action runs. */
  function Step(s: State, e: Event, read: TextReader): State {
    match e
    case Upload(picked) => HandleFileUpload(s, picked)
    case Remove(index) => RemoveFile(s, index)
    case Process => ProcessFiles(s, read)
  }

  /** The state after a sequence of actions, each run to completion before
      the next action starts. */
  function Replay(s: State, events: seq<Event>, read: TextReader): State
    decreases |events|
  {
    if |events| == 0 then s else Replay(Step(s, events[0], read), events[1..], read)
  }

  /** Results on display describe, entry for entry and in order, the first
      files of the selection: the name and the filtered lines of each. */
  ghost predicate ResultsDescribePrefix(s: State, read: TextReader) {
    s.processedData.Some? ==>
      && |s.processedData.value| <= |s.files|
      && forall k :: 0 <= k < |s.processedData.value| ==>
           && read(s.files[k]).Ok?
           && s.processedData.value[k] == ProcessedFile(s.files[k].name, Content(read(s.files[k]).value))
  }

  /** Every handler, a run taken as one transition, keeps the results
      describing a prefix of the selection and, between actions, the busy
      flag down. */
  lemma StepKeepsResultsDescribingPrefix(s: State, e: Event, read: TextReader)
    requires ResultsDescribePrefix(s, read) && !s.processing
    ensures ResultsDescribePrefix(Step(s, e, read), read) && !Step(s, e, read).processing
  {
  }

  /** From a state whose results describe a prefix of the selection and
      with no run in flight, any sequence of actions, each run settling
      before the next action, keeps both facts. */
  lemma {:induction false} ReplayKeepsResultsDescribingPrefix(s: State, events: seq<Event>, read: TextReader)
    requires ResultsDescribePrefix(s, read) && !s.processing
    ensures ResultsDescribePrefix(Replay(s, events, read), read) && !Replay(s, events, read).processing
    decreases |events|
  {
    if |events| > 0 {
      StepKeepsResultsDescribingPrefix(s, events[0], read);
      ReplayKeepsResultsDescribingPrefix(Step(s, events[0], read), events[1..], read);
    }
  }

  /** Every state reachable from the initial one by actions that do not
      overlap a run in flight. */
  lemma ReachableStatesAreConsistent(events: seq<Event>, read: TextReader)
    ensures ResultsDescribePrefix(Replay(Initial(), events, read), read)
    ensures !Replay(Initial(), events, read).processing
  {
    ReplayKeepsResultsDescribingPrefix(Initial(), events, read);
  }

  /** All files of all batches, in order. */
  function Concat(batches: seq<seq<SelectedFile>>): seq<SelectedFile> {
    if |batches| == 0 then [] else batches[0] + Concat(batches[1..])
  }

  /** One upload action per batch, in order. */
  function UploadEvents(batches: seq<seq<SelectedFile>>): (events: seq<Event>)
    ensures |events| == |batches|
    ensures forall i :: 0 <= i < |batches| ==> events[i] == Upload(Some(batches[i]))
  {
    seq(|batches|, i requires 0 <= i < |batches| => Upload(Some(batches[i])))
  }

  /** Repeated uploads accumulate: the selection becomes the old one
      followed by every batch in call order, results and the busy flag are
      untouched, and after at least one upload no error is shown. */
  lemma {:induction false} UploadsAccumulate(s: State, batches: seq<seq<SelectedFile>>, read: TextReader)
    ensures Replay(s, UploadEvents(batches), read).files == s.files + Concat(batches)
    ensures Replay(s, UploadEvents(batches), read).processedData == s.processedData
    ensures Replay(s, UploadEvents(batches), read).processing == s.processing
    ensures |batches| > 0 ==> Replay(s, UploadEvents(batches), read).error == None
    decreases |batches|
  {
    var events := UploadEvents(batches);
    if |batches| > 0 {
      var next := HandleFileUpload(s, Some(batches[0]));
      assert events[1..] == UploadEvents(batches[1..]);
      UploadsAccumulate(next, batches[1..], read);
      assert next.files + Concat(batches[1..]) == s.files + Concat(batches);
    } else {
      assert Concat(batches) == [];
      assert s.files + [] == s.files;
    }
  }

  /** Uploading after a successful run leaves the earlier results on
      display although they no longer cover the whole selection. */
  lemma UploadKeepsEarlierResults(first: SelectedFile, second: SelectedFile, read: TextReader)
    requires read(first).Ok?
    ensures var ran := ProcessFiles(HandleFileUpload(Initial(), Some([first])), read);
      var r := HandleFileUpload(ran, Some([second]));
      && r.files == [first, second]
      && r.processedData == Some([ProcessedFile(first.name, Content(read(first).value))])
  {
    var s1 := HandleFileUpload(Initial(), Some([first]));
    assert s1.files == [first];
    var s2 := ProcessFiles(s1, read);
    assert s2.processedData.value == [ProcessedFile(first.name, Content(read(first).value))];
  }

  /** A failed run after such an upload shows the error next to the earlier,
      shorter results instead of clearing them. */
  lemma FailedRunKeepsEarlierResults(first: SelectedFile, second: SelectedFile, read: TextReader)
    requires read(first).Ok? && read(second) == Fail(OtherValue)
    ensures var ran := ProcessFiles(HandleFileUpload(Initial(), Some([first])), read);
      var r := ProcessFiles(HandleFileUpload(ran, Some([second])), read);
      && r.files == [first, second]
      && r.processedData == Some([ProcessedFile(first.name, Content(read(first).value))])
      && r.error == Some(DefaultErrorMessage)
  {
    UploadKeepsEarlierResults(first, second, read);
    var s3 := HandleFileUpload(ProcessFiles(HandleFileUpload(Initial(), Some([first])), read), Some([second]));
    assert read(s3.files[1]).Fail? && FirstFailure(s3.files, read, 1);
    assert forall k :: FirstFailure(s3.files, read, k) ==> k == 1;
  }

  /** A removal while a run is in flight: the remove buttons stay enabled
      during a run, and the run publishes results for the selection it
      captured when it started. Removing the first of two files mid-run
      leaves one file selected next to two results, the first of them for
      the removed file. */
  lemma InFlightRemovalPublishesStaleResults(first: SelectedFile, second: SelectedFile, read: TextReader)
    requires read(first).Ok? && read(second).Ok?
    ensures var started := StartRun(State([first, second], None, None, false));
      var r := Settle(RemoveFile(started, 0), AwaitAll(started.files, read));
      && r.files == [second]
      && r.processedData.Some? && |r.processedData.value| == 2
      && r.processedData.value[0].name == first.name
      && !ResultsDescribePrefix(r, read)
  {
  }
}
