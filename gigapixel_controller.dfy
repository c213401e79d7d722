/** Driving Topaz Gigapixel AI (controllers/gigapixel_controller.py).
    Keystrokes and fixed sleeps are outside the model. What the window
    system, the file system and the called steps answer is given as inputs;
    the clock of the two waits is read in tenths of a second. */
module GigapixelController {
  import opened Common
  import opened Text
  import opened Clock
  import StateMonitor
  import FileHandler
  import opened BaseConfig
  import opened History

  /** `GigapixelConfig.WINDOW_TITLE_PATTERN`. */
  const WindowTitlePattern := "Topaz Gigapixel"

  /** `GigapixelConfig.PROCESSED_SUFFIXES`. */
  const ProcessedSuffixes := ["_upscaled", "-gigapixel", "_2x", "_4x", "_6x", "-enhanced"]

  /** What `process_batch` appends to an input's stem. */
  const OutputTag := "_upscaled"

  /** The waits' timeouts: 15 and 30 seconds. */
  const LoadVerifyTimeout := 150
  const FileWaitTimeout := 300

  // ---------------------------------------------------------------------
  // The single steps.

  /** `open_image`: false for a missing file or a failed activation;
      otherwise the title is watched for the file's name (`titles`, read
      against `clock`) and the answer is true whether or not it shows up. */
  method OpenImage(fileExists: bool, activated: bool, name: string,
                   clock: seq<int>, start: int, titles: seq<string>)
    returns (ok: bool)
    requires fileExists && activated ==>
               ClockReaches(clock, start, LoadVerifyTimeout) &&
               |titles| >= Polls(clock, start, LoadVerifyTimeout)
    ensures ok <==> fileExists && activated
  {
    if !fileExists {
      return false;
    }
    if !activated {
      return false;
    }
    var loaded, poll := StateMonitor.VerifyImageLoaded(name, clock, start, LoadVerifyTimeout, titles);
    if loaded {
      return true;
    } else {
      return true;
    }
  }

  /** `save_image`: after a successful activation, true exactly when the
      file appears before the deadline (`present`, read against `clock`) and
      then reads as completely written (`existsNow` and the two size
      readings). */
  method SaveImage(activated: bool, clock: seq<int>, start: int, present: seq<bool>,
                   existsNow: bool, size1: Option<int>, size2: Option<int>)
    returns (ok: bool)
    requires activated ==>
               ClockReaches(clock, start, FileWaitTimeout) &&
               |present| >= Polls(clock, start, FileWaitTimeout)
    ensures ok <==>
              activated &&
              (exists k :: 0 <= k < Polls(clock, start, FileWaitTimeout) && present[k]) &&
              FileHandler.IsFileReady(existsNow, size1, size2)
  {
    if !activated {
      return false;
    }
    var appeared, poll := FileHandler.WaitForFile(clock, start, FileWaitTimeout, present);
    if appeared {
      if FileHandler.IsFileReady(existsNow, size1, size2) {
        return true;
      }
    }
    return false;
  }

  /** `save_image_auto`: false only when activation fails; whether or not
      the foreground title afterwards names the main window, the answer is
      true. */
  function SaveImageAuto(activated: bool, title: string): (ok: bool)
    ensures ok <==> activated
  {
    if !activated then false
    else if IsInfix("Topaz Gigapixel", title) then true
    else true
  }

  /** `wait_for_processing`: a fixed sleep, then true. */
  function WaitForProcessing(): (ok: bool)
    ensures ok
  {
    true
  }

  /** How a chain of steps went: its answer and how many steps ran. */
  datatype SingleRun = SingleRun(ok: bool, stepsRun: nat)

  function Fails(): bool -> bool {
    b => !b
  }

  /** Steps run in order until one answers false. */
  function RunSteps(results: seq<bool>): (r: SingleRun)
    requires |results| > 0
    ensures 1 <= r.stepsRun <= |results|
    ensures forall k :: 0 <= k < r.stepsRun - 1 ==> results[k]
    ensures r.ok <==> forall k :: 0 <= k < |results| ==> results[k]
    ensures r.ok ==> r.stepsRun == |results|
    ensures !r.ok ==> !results[r.stepsRun - 1]
  {
    match FirstWhere(results, Fails())
    case None => SingleRun(true, |results|)
    case Some(i) => SingleRun(false, i + 1)
  }

  /** `process_single_image`: open, wait, save, stopping at the first step
      that fails. `openOk` and `saveOk` are the answers of `OpenImage` and
      `SaveImage`. */
  function ProcessSingleImage(openOk: bool, saveOk: bool): (r: SingleRun)
    ensures r.ok <==> openOk && saveOk
    ensures !openOk ==> r.stepsRun == 1
    ensures openOk ==> r.stepsRun == 3
  {
    var steps := [openOk, WaitForProcessing(), saveOk];
    assert steps[0] == openOk && steps[1] && steps[2] == saveOk;
    RunSteps(steps)
  }

  /** `process_single_image_auto_save`: open, zoom, wait, save with
      `save_image_auto`. The zoom's answer is not looked at, so it is not a
      step that can stop the chain. */
  function ProcessSingleImageAutoSave(openOk: bool, activatedForSave: bool, title: string)
    : (r: SingleRun)
    ensures r.ok <==> openOk && activatedForSave
    ensures !openOk ==> r.stepsRun == 1
  {
    var steps := [openOk, WaitForProcessing(), SaveImageAuto(activatedForSave, title)];
    assert steps[0] == openOk && steps[1] && steps[2] == activatedForSave;
    RunSteps(steps)
  }

  // ---------------------------------------------------------------------
  // The batches. Each image's attempt is given by its name: Returned(b) is
  // the step chain's answer, Raised(e) an exception out of it.

  function Succeeds(attempt: string -> Outcome): string -> bool {
    f => attempt(f) == Returned(true)
  }

  /** The name an output is derived from: the input's stem and the tag. */
  function OutputBase(input: string): string {
    PathStem(input) + OutputTag
  }

  /** Each output is the name `get_unique_filename` picks for its input. */
  ghost predicate OutputsNamed(images: seq<string>, outputs: seq<string>,
                               outputListing: string -> set<string>) {
    |outputs| == |images| &&
    forall k :: 0 <= k < |images| ==>
      FileHandler.FirstFree(outputListing(images[k]), OutputBase(images[k]),
                            PathSuffix(images[k]), outputs[k])
  }

  lemma OutputsNamedSnoc(images: seq<string>, outputs: seq<string>,
                         outputListing: string -> set<string>, i: nat, output: string)
    requires i < |images| && OutputsNamed(images[..i], outputs, outputListing)
    requires FileHandler.FirstFree(outputListing(images[i]), OutputBase(images[i]),
                                   PathSuffix(images[i]), output)
    ensures OutputsNamed(images[..i + 1], outputs + [output], outputListing)
  {
    var next := outputs + [output];
    forall k | 0 <= k < i + 1
      ensures FileHandler.FirstFree(outputListing(images[..i + 1][k]), OutputBase(images[..i + 1][k]),
                                    PathSuffix(images[..i + 1][k]), next[k])
    {
      if k < i {
        assert images[..i + 1][k] == images[..i][k];
        assert next[k] == outputs[k];
      }
    }
  }

  /** `process_batch`: every supported image of the input directory, in
      sorted order, is processed once and counted once, as a success exactly
      when its chain answered true. Its output is named after the input by
      `get_unique_filename` against the output directory as it is when the
      image's turn comes (`outputListing`). */
  method ProcessBatch(dirExists: bool, files: set<string>,
                      outputListing: string -> set<string>, attempt: string -> Outcome)
    returns (r: BatchResult, images: seq<string>, outputs: seq<string>)
    ensures ImageListing(images, dirExists, files, [])
    ensures |images| == 0 ==> r == BatchResult(0, 0, 0)
    ensures r.total == |images| && r.success + r.failed == r.total
    ensures r.success == |Filter(images, Succeeds(attempt))|
    ensures OutputsNamed(images, outputs, outputListing)
  {
    images := GetImageFiles(dirExists, files, []);
    if |images| == 0 {
      return BatchResult(0, 0, 0), images, [];
    }
    assert images[..0] == [];
    r := BatchResult(0, 0, |images|);
    outputs := [];
    for i := 0 to |images|
      invariant r.total == |images| && r.success + r.failed == i
      invariant r.success == |Filter(images[..i], Succeeds(attempt))|
      invariant OutputsNamed(images[..i], outputs, outputListing)
    {
      FilterCountSnoc(images, Succeeds(attempt), i);
      var input := images[i];
      var output, counter := FileHandler.GetUniqueFilename(outputListing(input), OutputBase(input),
                                                           PathSuffix(input));
      OutputsNamedSnoc(images, outputs, outputListing, i, output);
      outputs := outputs + [output];
      match attempt(input)
      case Returned(ok) =>
        if ok {
          r := r.(success := r.success + 1);
        } else {
          r := r.(failed := r.failed + 1);
        }
      case Raised(_) =>
        r := r.(failed := r.failed + 1);
    }
    assert images[..|images|] == images;
  }

  /** The result dictionary of `process_batch_auto_save`. */
  datatype AutoSaveResult = AutoSaveResult(success: nat, failed: nat, total: nat, skipped: nat)

  /** The history record of one image of `process_batch_auto_save`. */
  function AutoSaveRecord(path: string, outcome: Outcome, duration: real): (r: ImageRecord)
    ensures r.imagePath == path && r.imageName == BaseName(path)
    ensures r.success <==> outcome == Returned(true)
    ensures outcome == Returned(true) ==> r.duration == Some(duration) && r.error == None
    ensures outcome == Returned(false) ==>
              r.duration == Some(duration) && r.error == Some("Processing failed")
    ensures outcome.Raised? ==> r.duration == None && r.error == Some(outcome.error)
  {
    match outcome
    case Returned(ok) =>
      if ok then ImageRecord(path, BaseName(path), true, Some(duration), None)
      else ImageRecord(path, BaseName(path), false, Some(duration), Some("Processing failed"))
    case Raised(e) => ImageRecord(path, BaseName(path), false, None, Some(e))
  }

  /** The records of a run over `names`, in order. */
  function AutoSaveRecords(dir: string, names: seq<string>, attempt: string -> Outcome,
                           duration: string -> real): (r: seq<ImageRecord>)
    ensures |r| == |names|
    decreases |names|
  {
    if |names| == 0 then []
    else
      var last := names[|names| - 1];
      AutoSaveRecords(dir, names[..|names| - 1], attempt, duration) +
        [AutoSaveRecord(ImagePath(dir, last), attempt(last), duration(last))]
  }

  /** The records of one more image. */
  lemma AutoSaveRecordsSnoc(dir: string, names: seq<string>, i: nat, attempt: string -> Outcome,
                            duration: string -> real)
    requires i < |names|
    ensures AutoSaveRecords(dir, names[..i + 1], attempt, duration) ==
            AutoSaveRecords(dir, names[..i], attempt, duration) +
              [AutoSaveRecord(ImagePath(dir, names[i]), attempt(names[i]), duration(names[i]))]
  {
    assert names[..i + 1][..i] == names[..i];
  }

  /** The history entry of one image: `add_image_result` with the fields
      of `AutoSaveRecord`. */
  method RecordAttempt(history: RunHistory, path: string, outcome: Outcome, duration: real)
    requires history.Valid()
    modifies history
    ensures history.Valid()
    ensures history.processed == old(history.processed) + [AutoSaveRecord(path, outcome, duration)]
    ensures history.config == old(history.config) &&
            history.inputDirectory == old(history.inputDirectory) &&
            history.totalImages == old(history.totalImages)
  {
    match outcome
    case Returned(ok) =>
      history.AddImageResult(path, ok, Some(duration), if ok then None else Some("Processing failed"));
    case Raised(e) =>
      history.AddImageResult(path, false, None, Some(e));
  }

  /** One turn of that loop on the history: image `i`'s record joins the
      records of the images before it. */
  method RecordNext(history: RunHistory, ghost before: seq<ImageRecord>, inputDir: string,
                    images: seq<string>, i: nat, attempt: string -> Outcome,
                    duration: string -> real)
    requires i < |images|
    requires history.Valid()
    requires history.processed == before + AutoSaveRecords(inputDir, images[..i], attempt, duration)
    modifies history
    ensures history.Valid()
    ensures history.processed == before + AutoSaveRecords(inputDir, images[..i + 1], attempt, duration)
    ensures history.config == old(history.config) &&
            history.inputDirectory == old(history.inputDirectory) &&
            history.totalImages == old(history.totalImages)
  {
    var input := images[i];
    AutoSaveRecordsSnoc(inputDir, images, i, attempt, duration);
    RecordAttempt(history, ImagePath(inputDir, input), attempt(input), duration(input));
  }

  /** The loop of `process_batch_auto_save` over the listed images: each
      is counted once, as a success exactly when its chain answered true,
      and recorded once in the run history when one is given. */
  method AutoSaveEach(images: seq<string>, inputDir: string, attempt: string -> Outcome,
                      duration: string -> real, history: RunHistory?)
    returns (success: nat, failed: nat)
    requires history != null ==> history.Valid()
    modifies history
    ensures success + failed == |images|
    ensures success == |Filter(images, Succeeds(attempt))|
    ensures history != null ==>
              history.Valid() &&
              history.processed == old(history.processed) +
                AutoSaveRecords(inputDir, images, attempt, duration)
    ensures history != null ==>
              history.config == old(history.config) &&
              history.inputDirectory == old(history.inputDirectory) &&
              history.totalImages == old(history.totalImages)
  {
    success, failed := 0, 0;
    for i := 0 to |images|
      invariant success + failed == i
      invariant success == |Filter(images[..i], Succeeds(attempt))|
      invariant history != null ==>
                  history.Valid() &&
                  history.processed == old(history.processed) +
                    AutoSaveRecords(inputDir, images[..i], attempt, duration)
      invariant history != null ==>
                  history.config == old(history.config) &&
                  history.inputDirectory == old(history.inputDirectory) &&
                  history.totalImages == old(history.totalImages)
    {
      FilterCountSnoc(images, Succeeds(attempt), i);
      if attempt(images[i]) == Returned(true) {
        success := success + 1;
      } else {
        failed := failed + 1;
      }
      if history != null {
        RecordNext(history, old(history.processed), inputDir, images, i, attempt, duration);
      }
    }
    assert images[..|images|] == images;
  }

  /** `process_batch_auto_save`: the images not yet processed, in sorted
      order, each processed once, counted once, and recorded once in the run
      history when one is given; nothing is ever skipped. `duration` is the
      measured time of each image's chain. */
  method ProcessBatchAutoSave(dirExists: bool, files: set<string>, inputDir: string,
                              attempt: string -> Outcome, duration: string -> real,
                              history: RunHistory?)
    returns (r: AutoSaveResult, images: seq<string>)
    requires history != null ==> history.Valid()
    modifies history
    ensures ImageListing(images, dirExists, files, ProcessedSuffixes)
    ensures |images| == 0 ==> r == AutoSaveResult(0, 0, 0, 0)
    ensures r.skipped == 0 && r.total == |images| && r.success + r.failed == r.total
    ensures r.success == |Filter(images, Succeeds(attempt))|
    ensures history != null ==>
              history.Valid() &&
              history.processed == old(history.processed) +
                AutoSaveRecords(inputDir, images, attempt, duration)
    ensures history != null ==>
              history.config == old(history.config) &&
              history.inputDirectory == old(history.inputDirectory) &&
              history.totalImages == old(history.totalImages)
  {
    images := GetImageFiles(dirExists, files, ProcessedSuffixes);
    if |images| == 0 {
      return AutoSaveResult(0, 0, 0, 0), images;
    }
    var success, failed := AutoSaveEach(images, inputDir, attempt, duration, history);
    r := AutoSaveResult(success, failed, |images|, 0);
  }

  /** A name made of a stem, the tag, anything without a dot, and a suffix
      holds the tag in its stem. */
  lemma TaggedNameProcessed(stem: string, tail: string, ext: string)
    requires |ext| >= 2 && ext[0] == '.' && forall k :: 0 < k < |ext| ==> ext[k] != '.'
    ensures Processed(stem + OutputTag + tail + ext, ProcessedSuffixes)
  {
    var named := stem + OutputTag + tail;
    assert stem + OutputTag + tail + ext == named + ext;
    StemOfSuffixed(named, ext);
    var folded := Lower(named);
    assert named[|stem|..|stem| + |OutputTag|] == OutputTag;
    assert folded[|stem|..|stem| + |OutputTag|] == Lower(OutputTag);
    assert OccursAt(Lower(ProcessedSuffixes[0]), folded, |stem|);
  }

  /** The outputs of `process_batch` carry the tag in their stem, so a later
      `process_batch_auto_save` over the same directory leaves them out.
      (Every supported name longer than its extension has a suffix.) */
  lemma OutputsExcludedOnRescan(existing: set<string>, input: string, output: string)
    requires |PathSuffix(input)| > 0
    requires FileHandler.FirstFree(existing, OutputBase(input), PathSuffix(input), output)
    ensures Processed(output, ProcessedSuffixes)
  {
    var stem := PathStem(input);
    var ext := PathSuffix(input);
    if OutputBase(input) + ext !in existing {
      assert output == stem + OutputTag + "" + ext;
      TaggedNameProcessed(stem, "", ext);
    } else {
      var n: nat :| n >= 1 && output == FileHandler.Candidate(OutputBase(input), ext, n) &&
        forall k :: 1 <= k < n ==> FileHandler.Candidate(OutputBase(input), ext, k) in existing;
      assert output == stem + OutputTag + ("_" + NatToString(n)) + ext;
      TaggedNameProcessed(stem, "_" + NatToString(n), ext);
    }
  }
}
