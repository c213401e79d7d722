/** Driving Topaz Photo AI (controllers/photoai_controller.py). Keystrokes,
    mouse clicks and sleeps are outside the model. What the window system,
    the screen and the step calls answer is given as inputs: the handle
    found for the window, its rectangle (None when the query raises), the
    screen each template search sees, and the outcome of each batch step. */
module PhotoAiController {
  import opened Common
  import opened Text
  import opened UiDetector
  import opened BaseConfig
  import opened History

  /** `PhotoAIConfig.WINDOW_TITLE_PATTERN`. */
  const WindowTitlePattern := "Photo AI"

  /** `PhotoAIConfig.PROCESSED_SUFFIXES`: stems holding one of these are
      outputs of an earlier run. */
  const ProcessedSuffixes := ["_photoai", "-photoai", "_enhanced", "-enhanced", "_ai"]

  /** The confidence the controller's detector is built with. */
  const DetectorConfidence: real := 0.8

  // ---------------------------------------------------------------------
  // Clicks relative to the window.

  /** One coordinate of `click_relative_to_window`: a non-negative offset
      counts from the near edge, a negative one from the far edge. */
  function FromEdge(near: int, far: int, offset: int): (c: int)
    ensures offset >= 0 ==> c - near == offset
    ensures offset < 0 ==> far - c == -offset
  {
    if offset >= 0 then near + offset else far + offset
  }

  /** `click_relative_to_window`: the point clicked, or None when the method
      answers false (no window found, or the rectangle query raises). */
  function ClickRelativeToWindow(hwnd: int, rect: Option<Bounds>, xOffset: int, yOffset: int)
    : (click: Option<Point>)
    ensures click.None? <==> hwnd == 0 || rect.None?
    ensures click.Some? ==>
              click.value.x == FromEdge(rect.value.left, rect.value.right, xOffset) &&
              click.value.y == FromEdge(rect.value.top, rect.value.bottom, yOffset)
  {
    if hwnd == 0 then None
    else match rect
      case None => None
      case Some(b) => Some(Point(FromEdge(b.left, b.right, xOffset), FromEdge(b.top, b.bottom, yOffset)))
  }

  /** An offset no larger than the window's extent, from either edge, lands
      on the window. */
  lemma ClickInsideWindow(hwnd: int, b: Bounds, xOffset: int, yOffset: int)
    requires hwnd != 0
    requires -(b.right - b.left) <= xOffset <= b.right - b.left
    requires -(b.bottom - b.top) <= yOffset <= b.bottom - b.top
    ensures ClickRelativeToWindow(hwnd, Some(b), xOffset, yOffset).Some?
    ensures var p := ClickRelativeToWindow(hwnd, Some(b), xOffset, yOffset).value;
            b.left <= p.x <= b.right && b.top <= p.y <= b.bottom
  {
    var p := ClickRelativeToWindow(hwnd, Some(b), xOffset, yOffset).value;
    assert p.x == FromEdge(b.left, b.right, xOffset);
    assert p.y == FromEdge(b.top, b.bottom, yOffset);
  }

  /** The click of `force_activate_app`: halfway across the window (floor
      division), 100 pixels below its top edge. */
  function ActivationClick(b: Bounds): (p: Point)
    ensures p.y == b.top + 100
    ensures 2 * (p.x - b.left) <= b.right - b.left < 2 * (p.x - b.left) + 2
    ensures b.left <= b.right ==> b.left <= p.x <= b.right
  {
    Point(b.left + (b.right - b.left) / 2, b.top + 100)
  }

  /** `force_activate_app`: up to three activation attempts, stopping at the
      first that succeeds (`activations[k]` is attempt k's answer); then a
      click into the window when it is found and its rectangle can be read.
      The last activation's answer is ignored: the method always succeeds.
      `attempts` counts the attempts made. */
  method ForceActivateApp(activations: seq<bool>, hwnd: int, rect: Option<Bounds>)
    returns (ok: bool, attempts: nat, click: Option<Point>)
    requires |activations| >= 3
    ensures ok
    ensures 1 <= attempts <= 3
    ensures forall k :: 0 <= k < attempts - 1 ==> !activations[k]
    ensures attempts < 3 ==> activations[attempts - 1]
    ensures click.Some? <==> hwnd != 0 && rect.Some?
    ensures click.Some? ==> click.value == ActivationClick(rect.value)
  {
    attempts := 0;
    var attempt := 0;
    while attempt < 3
      invariant 0 <= attempt <= 3 && attempts == attempt
      invariant forall k :: 0 <= k < attempt ==> !activations[k]
    {
      attempts := attempts + 1;
      if activations[attempt] {
        break;
      }
      attempt := attempt + 1;
    }
    click := None;
    if hwnd != 0 {
      match rect {
        case Some(b) =>
          click := Some(ActivationClick(b));
        case None =>
      }
    }
    ok := true;
  }

  /** `open_images`: false for an empty list or a failed activation, true
      otherwise (the dialog keystrokes are not modelled). */
  function OpenImages(images: seq<string>, activated: bool): (ok: bool)
    ensures ok <==> |images| > 0 && activated
  {
    if |images| == 0 then false
    else if !activated then false
    else true
  }

  // ---------------------------------------------------------------------
  // Reading the screen.

  /** `_is_processing_complete`: the check icon is found, searched for with
      its lenient confidence. */
  function IsProcessingComplete(files: set<string>, screen: (string, real) -> Located): (done: bool)
    ensures done <==>
              TemplateFile(files, "complete_check").Some? &&
              screen(TemplateFile(files, "complete_check").value, 0.6).OnScreen?
  {
    ButtonPosition(files, "complete_check", None, DetectorConfidence, screen).Some?
  }

  /** The templates whose presence means the image is still being analysed. */
  const ProcessingTemplates := ["analyzing_spinner", "analyzing_text"]

  /** `_is_still_processing`: true as soon as one of the templates is
      found. */
  method IsStillProcessing(files: set<string>, screen: (string, real) -> Located)
    returns (busy: bool)
    ensures busy <==>
              exists i :: 0 <= i < |ProcessingTemplates| &&
                ButtonPosition(files, ProcessingTemplates[i], None, DetectorConfidence, screen).Some?
  {
    for i := 0 to |ProcessingTemplates|
      invariant forall j :: 0 <= j < i ==>
                  ButtonPosition(files, ProcessingTemplates[j], None, DetectorConfidence, screen).None?
    {
      var pos := FindButton(files, ProcessingTemplates[i], None, DetectorConfidence, screen);
      if pos.Some? {
        return true;
      }
    }
    return false;
  }

  // ---------------------------------------------------------------------
  // Waiting for one image, in whole seconds.

  const InitialWait := 3
  const MaxWait := 30
  const CheckInterval := 2
  const ConfirmDelay := 3

  /** What one pass of the wait loop sees: whether the check icon is there,
      and whether it is still there on the re-check three seconds later
      (looked at only when the first check saw it). */
  datatype ImagePoll = ImagePoll(first: bool, recheck: bool)

  predicate Confirms(p: ImagePoll) {
    p.first && p.recheck
  }

  /** Seconds a pass that does not confirm adds to `elapsed`. */
  function PassCost(p: ImagePoll): nat {
    if p.first then ConfirmDelay + CheckInterval else CheckInterval
  }

  /** `elapsed` at the start of pass k. */
  function ElapsedBefore(polls: seq<ImagePoll>, k: nat): (e: nat)
    requires k <= |polls|
    decreases k
  {
    if k == 0 then InitialWait else ElapsedBefore(polls, k - 1) + PassCost(polls[k - 1])
  }

  lemma {:induction false} ElapsedGrows(polls: seq<ImagePoll>, k: nat)
    requires k <= |polls|
    ensures ElapsedBefore(polls, k) >= InitialWait + CheckInterval * k
    decreases k
  {
    if k > 0 {
      ElapsedGrows(polls, k - 1);
    }
  }

  lemma {:induction false} ElapsedMonotone(polls: seq<ImagePoll>, i: nat, j: nat)
    requires i <= j <= |polls|
    ensures ElapsedBefore(polls, i) <= ElapsedBefore(polls, j)
    decreases j - i
  {
    if i < j {
      ElapsedMonotone(polls, i, j - 1);
    }
  }

  /** The wait confirms when some pass that starts before the deadline
      confirms. */
  predicate ConfirmedInTime(polls: seq<ImagePoll>) {
    exists j :: 0 <= j < |polls| && Confirms(polls[j]) && ElapsedBefore(polls, j) < MaxWait
  }

  /** Passes that can start before the deadline: 3 + 2 * 13 < 30. */
  const MaxPasses := 14

  /** The wait loop of `process_each_image_sequentially` for one image:
      `completed` only when the icon is seen on two checks three seconds
      apart; a failed re-check falls back to ordinary polling. `passes` is
      the number of passes made. */
  method WaitForImage(polls: seq<ImagePoll>) returns (completed: bool, passes: nat)
    requires |polls| >= MaxPasses
    ensures passes <= MaxPasses
    ensures forall k :: 0 <= k < passes ==> ElapsedBefore(polls, k) < MaxWait
    ensures completed ==> 0 < passes && Confirms(polls[passes - 1]) &&
                          forall k :: 0 <= k < passes - 1 ==> !Confirms(polls[k])
    ensures !completed ==> ElapsedBefore(polls, passes) >= MaxWait &&
                           forall k :: 0 <= k < passes ==> !Confirms(polls[k])
    ensures completed <==> ConfirmedInTime(polls)
  {
    completed := false;
    passes := 0;
    var elapsed := InitialWait;
    while elapsed < MaxWait
      invariant passes <= MaxPasses && elapsed == ElapsedBefore(polls, passes)
      invariant forall k :: 0 <= k < passes ==> ElapsedBefore(polls, k) < MaxWait
      invariant forall k :: 0 <= k < passes ==> !Confirms(polls[k])
      decreases MaxWait - elapsed
    {
      ElapsedGrows(polls, passes);
      var p := polls[passes];
      passes := passes + 1;
      if p.first {
        elapsed := elapsed + ConfirmDelay;
        if p.recheck {
          completed := true;
          break;
        }
      }
      elapsed := elapsed + CheckInterval;
    }
    if completed {
      assert Confirms(polls[passes - 1]) && ElapsedBefore(polls, passes - 1) < MaxWait;
    } else {
      forall j | 0 <= j < |polls| && Confirms(polls[j]) ensures ElapsedBefore(polls, j) >= MaxWait {
        if j >= passes {
          ElapsedMonotone(polls, passes, j);
        }
      }
    }
  }

  /** `process_each_image_sequentially`: each image gets its own wait; every
      image after the first is first selected by a move to the next one. A
      timeout only logs, and the method succeeds. `polls[i]` is what image
      i's wait sees; `confirmed[i]` is whether that wait completed. */
  method ProcessEachImageSequentially(numImages: int, polls: seq<seq<ImagePoll>>)
    returns (ok: bool, moves: nat, confirmed: seq<bool>)
    requires numImages <= |polls|
    requires forall i :: 0 <= i < |polls| ==> |polls[i]| >= MaxPasses
    ensures ok
    ensures moves == if numImages > 1 then numImages - 1 else 0
    ensures |confirmed| == if numImages > 0 then numImages else 0
    ensures forall i :: 0 <= i < |confirmed| ==> (confirmed[i] <==> ConfirmedInTime(polls[i]))
  {
    moves := 0;
    confirmed := [];
    var i := 0;
    while i < numImages
      invariant 0 <= i && (numImages >= 0 ==> i <= numImages)
      invariant numImages < 0 ==> i == 0
      invariant moves == if i > 1 then i - 1 else 0
      invariant |confirmed| == i
      invariant forall k :: 0 <= k < i ==> (confirmed[k] <==> ConfirmedInTime(polls[k]))
    {
      if i > 0 {
        moves := moves + 1;
      }
      var completed, passes := WaitForImage(polls[i]);
      confirmed := confirmed + [completed];
      i := i + 1;
    }
    ok := true;
  }

  /** An image whose check icon stays up is confirmed on the first pass. */
  method SteadyIconScenario() returns (completed: bool, passes: nat)
    ensures completed && passes == 1
  {
    var polls := seq(MaxPasses, _ => ImagePoll(true, true));
    assert Confirms(polls[0]) && ElapsedBefore(polls, 0) < MaxWait;
    completed, passes := WaitForImage(polls);
  }

  /** An icon that flickers away on every re-check never confirms. */
  lemma FlickerNeverConfirms(polls: seq<ImagePoll>)
    requires forall k :: 0 <= k < |polls| ==> !polls[k].recheck
    ensures !ConfirmedInTime(polls)
  {
  }

  // ---------------------------------------------------------------------
  // The batch.

  function StepFails(): Outcome -> bool {
    (s: Outcome) => s != Returned(true)
  }

  /** The records a batch leaves in the run history: one success per image
      with an even share of the run's duration when every step succeeded;
      one failure per image with the error text when a step raised; none
      when a step answered false. */
  function BatchRecords(paths: seq<string>, steps: seq<Outcome>, duration: real): (r: seq<ImageRecord>)
    requires |paths| > 0
    ensures FirstWhere(steps, StepFails()).None? ==>
              |r| == |paths| &&
              forall k :: 0 <= k < |paths| ==>
                r[k] == ImageRecord(paths[k], BaseName(paths[k]), true,
                                    Some(duration / (|paths| as real)), None)
    ensures (FirstWhere(steps, StepFails()).Some? &&
             steps[FirstWhere(steps, StepFails()).value].Returned?) ==> r == []
    ensures (FirstWhere(steps, StepFails()).Some? &&
             steps[FirstWhere(steps, StepFails()).value].Raised?) ==>
              |r| == |paths| &&
              forall k :: 0 <= k < |paths| ==>
                r[k] == ImageRecord(paths[k], BaseName(paths[k]), false, None,
                                    Some(steps[FirstWhere(steps, StepFails()).value].error))
  {
    match FirstWhere(steps, StepFails())
    case None =>
      Uniform(paths, true, Some(duration / (|paths| as real)), None)
    case Some(i) =>
      match steps[i]
      case Returned(_) => []
      case Raised(e) =>
        Uniform(paths, false, None, Some(e))
  }

  /** The four steps of `process_batch` in order: opening the listed images
      (whose answer is `open_images`' own, given whether the application
      window could be activated), then Autopilot, the per-image wait and the
      export, whose outcomes are `later`. */
  function BatchSteps(images: seq<string>, activated: bool, later: seq<Outcome>): seq<Outcome> {
    [Returned(OpenImages(images, activated))] + later
  }

  /** Opening a non-empty listing fails exactly when activation fails, and
      then the batch stops at its first step with no records; otherwise the
      later steps alone decide. */
  lemma OpeningDecides(images: seq<string>, activated: bool, later: seq<Outcome>,
                       paths: seq<string>, duration: real)
    requires |images| > 0 && |paths| > 0
    ensures !activated ==>
              FirstWhere(BatchSteps(images, activated, later), StepFails()) == Some(0) &&
              BatchRecords(paths, BatchSteps(images, activated, later), duration) == []
    ensures activated ==>
              (FirstWhere(BatchSteps(images, activated, later), StepFails()).None? <==>
               FirstWhere(later, StepFails()).None?)
  {
    var steps := BatchSteps(images, activated, later);
    if activated {
      assert steps[0] == Returned(true);
      if FirstWhere(later, StepFails()).None? {
        forall k | 0 <= k < |steps| ensures !StepFails()(steps[k]) {
          if k > 0 {
            assert steps[k] == later[k - 1];
          }
        }
      } else {
        var k := FirstWhere(later, StepFails()).value;
        assert steps[k + 1] == later[k];
      }
    } else {
      assert StepFails()(steps[0]);
    }
  }

  /** `process_batch`: the unprocessed images of the input directory are
      opened, given Autopilot, waited for and exported, as the four steps of
      `BatchSteps`, each of which may answer false or raise. The batch
      succeeds or fails as a whole: every image counts as a success when all
      four steps succeed, and as a failure as soon as one does not. The run
      history, when given, receives the records of `BatchRecords` and keeps
      its settings. `activated` is what activating the window answers when
      the images are opened; `duration` is the run's measured time. */
  method ProcessBatch(dirExists: bool, files: set<string>, inputDir: string,
                      activated: bool, later: seq<Outcome>, duration: real, history: RunHistory?)
    returns (r: BatchResult, images: seq<string>)
    requires |later| == 3
    requires history != null ==> history.Valid()
    modifies history
    ensures ImageListing(images, dirExists, files, ProcessedSuffixes)
    ensures r.total == |images|
    ensures |images| == 0 ==> r == BatchResult(0, 0, 0)
    ensures |images| > 0 && FirstWhere(BatchSteps(images, activated, later), StepFails()).None? ==>
              r == BatchResult(|images|, 0, |images|)
    ensures |images| > 0 && FirstWhere(BatchSteps(images, activated, later), StepFails()).Some? ==>
              r == BatchResult(0, |images|, |images|)
    ensures |images| > 0 && !activated ==> r == BatchResult(0, |images|, |images|)
    ensures history != null ==> history.Valid()
    ensures history != null ==>
              history.config == old(history.config) &&
              history.inputDirectory == old(history.inputDirectory) &&
              history.totalImages == old(history.totalImages)
    ensures history != null && (|images| == 0 || !activated) ==>
              history.processed == old(history.processed)
    ensures history != null && |images| > 0 ==>
              history.processed == old(history.processed) +
                BatchRecords(ImagePaths(inputDir, images), BatchSteps(images, activated, later), duration)
  {
    images := GetImageFiles(dirExists, files, ProcessedSuffixes);
    if |images| == 0 {
      return BatchResult(0, 0, 0), images;
    }
    var num := |images|;
    r := BatchResult(0, 0, num);
    var paths := ImagePaths(inputDir, images);
    var steps := BatchSteps(images, activated, later);
    OpeningDecides(images, activated, later, paths, duration);
    var k := 0;
    while k < 4 && steps[k] == Returned(true)
      invariant 0 <= k <= 4
      invariant forall j :: 0 <= j < k ==> !StepFails()(steps[j])
    {
      k := k + 1;
    }
    if k < 4 {
      assert FirstWhere(steps, StepFails()) == Some(k);
    }
    if k < 4 && steps[k].Returned? {
      r := r.(failed := num);
      return;
    }
    if k == 4 {
      r := r.(success := num);
      if history != null {
        RecordAll(history, paths, true, Some(duration / (num as real)), None);
      }
    } else {
      r := r.(failed := num);
      if history != null {
        RecordAll(history, paths, false, None, Some(steps[k].error));
      }
    }
  }
}
