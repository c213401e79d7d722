/** Completion detection by OCR over a fixed screen region, first generation
    (utils/ocr_monitor.py). The recognition engine, screen capture and the
    clock are outside the model: each poll's verdict is an input, and time is
    counted in integer ticks. */
module OcrMonitor {
  import opened Common
  import opened Text

  /** A handle on a constructed recognition engine. */
  datatype Reader = Reader(id: nat)

  /** The process-wide, lazily constructed engine (`_reader`). */
  class ReaderSlot {
    var reader: Option<Reader>

    constructor ()
      ensures reader == None
    {
      reader := None;
    }

    /** `get_ocr_reader`. `init` is what constructing the engine would yield
        now (None when construction raises); it is used only while the slot
        is empty, and a failed construction leaves the slot empty. */
    method Get(init: Option<Reader>) returns (r: Option<Reader>)
      modifies this
      ensures old(reader).Some? ==> r == old(reader) && reader == old(reader)
      ensures old(reader).None? ==> r == init && reader == init
    {
      if reader.None? {
        if init.None? {
          return None;
        }
        reader := init;
      }
      r := reader;
    }
  }

  /** Two calls in a row: once construction has succeeded, the second call
      returns the very same engine, whatever construction would yield now. */
  method GetTwice(slot: ReaderSlot, first: Option<Reader>, second: Option<Reader>)
    returns (a: Option<Reader>, b: Option<Reader>)
    modifies slot
    ensures a.Some? ==> b == a && slot.reader == a
    ensures old(slot.reader).None? && first.None? ==> a == None && b == second
  {
    a := slot.Get(first);
    b := slot.Get(second);
  }

  /** What one recognition pass yields: the recognised strings, or a raise. */
  datatype OcrRun = Recognised(texts: seq<string>) | OcrRaised

  /** The scan inside `detect_text_in_region`: is the target in one of the
      recognised strings, case-insensitively? */
  method FindTarget(texts: seq<string>, target: string) returns (found: bool)
    ensures found <==> exists k :: 0 <= k < |texts| && ContainsIgnoringCase(texts[k], target)
  {
    var i := 0;
    while i < |texts|
      invariant 0 <= i <= |texts|
      invariant forall k :: 0 <= k < i ==> !ContainsIgnoringCase(texts[k], target)
    {
      if ContainsIgnoringCase(texts[i], target) {
        return true;
      }
      i := i + 1;
    }
    return false;
  }

  /** `detect_text_in_region`: false when no engine can be had, when capture
      fails or when recognition raises; otherwise whether some recognised
      string holds the target case-insensitively. */
  method DetectTextInRegion(slot: ReaderSlot, init: Option<Reader>, captured: bool,
                            run: OcrRun, target: string)
    returns (found: bool)
    modifies slot
    ensures slot.reader == if old(slot.reader).Some? then old(slot.reader) else init
    ensures found <==> slot.reader.Some? && captured && run.Recognised? &&
                       exists k :: 0 <= k < |run.texts| && ContainsIgnoringCase(run.texts[k], target)
  {
    var reader := slot.Get(init);
    if reader.None? || !captured {
      return false;
    }
    match run
    case OcrRaised =>
      found := false;
    case Recognised(texts) =>
      found := FindTarget(texts, target);
  }

  /** `get_preview_region_coords`: a band at the top right of the screen,
      10 (expanded) or 20 pixels in from the right edge. */
  function PreviewRegion(screenWidth: int, expanded: bool): (r: Region)
    ensures r.width > 0 && r.height > 0
    ensures r.x + r.width == screenWidth - (if expanded then 10 else 20)
  {
    if expanded then Region(screenWidth - 450 - 10, 30, 450, 300)
    else Region(screenWidth - 400 - 20, 50, 400, 100)
  }

  /** `get_queue_region_coords`: the queue area of the export dialog. */
  const QueueRegion := Region(140, 130, 720, 150)

  // ---------------------------------------------------------------------
  // State machine A: wait for a status text to disappear.

  datatype Disappearance =
    | ReaderUnavailable
    | Confirmed(poll: nat)     // index of the poll that saw the second miss in a row
    | TimedOut(polls: nat)     // number of polls made

  /** Polls i-1 and i both missed the text. */
  predicate MissPair(present: seq<bool>, i: int) {
    1 <= i < |present| && !present[i - 1] && !present[i]
  }

  /** `wait_for_text_disappear`. `present[k]` is the verdict of the k-th
      poll. Without an engine it gives up (false) after the grace period.
      Otherwise it confirms at the first poll that is the second miss in a
      row, and when the deadline comes first it still lets the caller go on. */
  method WaitForTextDisappear(readerAvailable: bool, initialWait: int, checkInterval: int,
                              timeout: int, present: seq<bool>)
    returns (ok: bool, verdict: Disappearance)
    requires checkInterval > 0
    requires |present| >= Iterations(initialWait, checkInterval, timeout)
    ensures ok <==> readerAvailable
    ensures verdict.ReaderUnavailable? <==> !readerAvailable
    ensures verdict.Confirmed? ==>
              verdict.poll < Iterations(initialWait, checkInterval, timeout) &&
              MissPair(present, verdict.poll) &&
              forall j :: 0 <= j < verdict.poll ==> !MissPair(present, j)
    ensures verdict.TimedOut? ==>
              verdict.polls == Iterations(initialWait, checkInterval, timeout) &&
              forall j :: 0 <= j < verdict.polls ==> !MissPair(present, j)
  {
    if !readerAvailable {
      return false, ReaderUnavailable;
    }
    var total := Iterations(initialWait, checkInterval, timeout);
    var elapsed := initialWait;
    var consecutiveNotFound := 0;
    var n := 0;
    while elapsed < timeout
      invariant n + Iterations(elapsed, checkInterval, timeout) == total
      invariant consecutiveNotFound == if n > 0 && !present[n - 1] then 1 else 0
      invariant forall j :: 0 <= j < n ==> !MissPair(present, j)
      decreases timeout - elapsed
    {
      if present[n] {
        consecutiveNotFound := 0;
      } else {
        consecutiveNotFound := consecutiveNotFound + 1;
        if consecutiveNotFound >= 2 {
          return true, Confirmed(n);
        }
      }
      elapsed := elapsed + checkInterval;
      n := n + 1;
    }
    return true, TimedOut(n);
  }

  /** [present, present, absent, absent]: confirmed at the fourth poll, not
      the third. */
  method DisappearanceScenario() returns (verdict: Disappearance)
    ensures verdict == Confirmed(3)
  {
    assert Iterations(30, 20, 110) == 4;
    var ok;
    ok, verdict := WaitForTextDisappear(true, 30, 20, 110, [true, true, false, false]);
    assert MissPair([true, true, false, false], 3);
  }

  // ---------------------------------------------------------------------
  // State machine B: Processing -> Done in the export queue.

  /** What one iteration of the save wait observes: the two indicators, and
      the two indicators of the delayed re-check (read only if it happens). */
  datatype QueuePoll = QueuePoll(processing: bool, done: bool,
                                 recheckDone: bool, recheckProcessing: bool)

  datatype SaveWait =
    | ReaderMissing
    | DoneSeen(poll: nat)
    | ImplicitlyDone(poll: nat)
    | SaveTimedOut(polls: nat, processingSeen: bool, doneDetected: bool)

  /** Some poll before `n` saw the Processing indicator. */
  ghost predicate ProcessingSeen(polls: seq<QueuePoll>, n: int) {
    exists j :: 0 <= j < n && j < |polls| && polls[j].processing
  }

  /** Poll i ends the wait without an explicit Done: Processing was seen at an
      earlier poll, poll i shows neither indicator, and the re-check shows Done
      or still no Processing. */
  ghost predicate ImplicitAt(polls: seq<QueuePoll>, i: int) {
    0 <= i < |polls| && ProcessingSeen(polls, i) && !polls[i].processing && !polls[i].done &&
    (polls[i].recheckDone || !polls[i].recheckProcessing)
  }

  /** Poll i ends the wait, explicitly or implicitly. */
  ghost predicate EndsAt(polls: seq<QueuePoll>, i: int) {
    0 <= i < |polls| && (polls[i].done || ImplicitAt(polls, i))
  }

  /** The verdict a save wait that polls `total` times must reach. */
  ghost predicate SaveVerdictFits(polls: seq<QueuePoll>, total: nat, verdict: SaveWait) {
    match verdict
    case ReaderMissing => true
    case DoneSeen(i) =>
      i < total && i < |polls| && polls[i].done && forall j :: 0 <= j < i ==> !EndsAt(polls, j)
    case ImplicitlyDone(i) =>
      i < total && ImplicitAt(polls, i) && forall j :: 0 <= j < i ==> !EndsAt(polls, j)
    case SaveTimedOut(n, seen, doneFlag) =>
      n == total && (forall j :: 0 <= j < n ==> !EndsAt(polls, j)) &&
      seen == ProcessingSeen(polls, n) && !doneFlag
  }

  lemma ProcessingSeenStep(polls: seq<QueuePoll>, n: nat)
    requires n < |polls|
    ensures ProcessingSeen(polls, n + 1) <==> ProcessingSeen(polls, n) || polls[n].processing
  {
    if ProcessingSeen(polls, n + 1) && !polls[n].processing {
      var j :| 0 <= j < n + 1 && j < |polls| && polls[j].processing;
      assert j < n;
    }
  }

  /** `wait_for_save_processing_complete`. Without an engine it waits a fixed
      time and lets the caller go on; otherwise it ends at the first poll that
      sees Done (whether or not Processing was ever seen) or completes
      implicitly, and at the deadline it lets the caller go on too. It never
      answers false. */
  method WaitForSaveProcessingComplete(readerAvailable: bool, initialWait: int,
                                       checkInterval: int, timeout: int,
                                       polls: seq<QueuePoll>)
    returns (ok: bool, verdict: SaveWait)
    requires checkInterval > 0
    requires |polls| >= Iterations(initialWait, checkInterval, timeout)
    ensures ok
    ensures verdict.ReaderMissing? <==> !readerAvailable
    ensures SaveVerdictFits(polls, Iterations(initialWait, checkInterval, timeout), verdict)
  {
    if !readerAvailable {
      return true, ReaderMissing;
    }
    var total := Iterations(initialWait, checkInterval, timeout);
    var elapsed := initialWait;
    var n := 0;
    var processingDetected := false;
    var doneDetected := false;
    while elapsed < timeout
      invariant n + Iterations(elapsed, checkInterval, timeout) == total
      invariant processingDetected == ProcessingSeen(polls, n)
      invariant !doneDetected
      invariant forall j :: 0 <= j < n ==> !EndsAt(polls, j)
      decreases timeout - elapsed
    {
      var p := polls[n];
      ProcessingSeenStep(polls, n);
      var seenBefore := processingDetected;
      if p.processing && !processingDetected {
        processingDetected := true;
      }
      if p.done {
        if !doneDetected {
          doneDetected := true;
          return true, DoneSeen(n);
        }
      }
      if processingDetected && !p.processing && !p.done {
        assert seenBefore;
        if p.recheckDone || !p.recheckProcessing {
          return true, ImplicitlyDone(n);
        }
      }
      elapsed := elapsed + checkInterval;
      n := n + 1;
    }
    return true, SaveTimedOut(n, processingDetected, doneDetected);
  }

  /** [no signal, in progress, in progress, done]: ends at the Done frame. */
  method DoneScenario() returns (verdict: SaveWait)
    ensures verdict == DoneSeen(3)
  {
    var none := QueuePoll(false, false, false, true);
    var busy := QueuePoll(true, false, false, true);
    var done := QueuePoll(false, true, false, false);
    var polls := [none, busy, busy, done];
    assert Iterations(20, 20, 100) == 4;
    var ok;
    ok, verdict := WaitForSaveProcessingComplete(true, 20, 20, 100, polls);
    assert EndsAt(polls, 3);
    assert !EndsAt(polls, 0) && !EndsAt(polls, 1) && !EndsAt(polls, 2);
  }

  /** [in progress, in progress, absent] with an absent re-check: Done is
      never shown, yet the wait ends at the third poll. */
  method ImplicitScenario() returns (verdict: SaveWait)
    ensures verdict == ImplicitlyDone(2)
  {
    var busy := QueuePoll(true, false, false, true);
    var gone := QueuePoll(false, false, false, false);
    var polls := [busy, busy, gone, gone];
    assert Iterations(20, 20, 100) == 4;
    var ok;
    ok, verdict := WaitForSaveProcessingComplete(true, 20, 20, 100, polls);
    assert polls[0].processing;
    assert ImplicitAt(polls, 2) && EndsAt(polls, 2);
    assert !EndsAt(polls, 0) && !EndsAt(polls, 1);
    assert forall i | 0 <= i < |polls| :: !polls[i].done;
  }
}
