/** Completion detection by OCR, second generation (utils/ocr_monitor_v2.py):
    three recognisers tried in order of preference — a word-level engine with
    per-word confidences, a line-level engine used as a fallback, and template
    matching keyed by the lower-cased target — and the same Processing -> Done
    wait as the first generation without its engine check. */
module OcrMonitorV2 {
  import opened Common
  import opened Text
  import opened OcrMonitor

  /** One word of word-level output: its confidence (0-100, or -1 for layout
      rows) and its text. */
  datatype Token = Token(conf: int, text: string)

  /** Default word confidence a word must exceed to be kept. */
  const WordConfidenceThreshold := 30

  /** Default score a template match must reach. */
  const TemplateThreshold: real := 0.7

  /** The kept words, in order: stripped texts of the words more confident
      than the threshold whose stripped text is not empty. */
  function KeptWords(tokens: seq<Token>, threshold: int): (r: seq<string>)
    ensures |r| <= |tokens|
    decreases |tokens|
  {
    if |tokens| == 0 then []
    else
      var t := tokens[|tokens| - 1];
      KeptWords(tokens[..|tokens| - 1], threshold) +
        (if t.conf > threshold && Strip(t.text) != "" then [Strip(t.text)] else [])
  }

  /** Every kept word is a non-empty stripped text of a confident word. */
  lemma {:induction false} KeptWordsSound(tokens: seq<Token>, threshold: int, k: nat)
    requires k < |KeptWords(tokens, threshold)|
    ensures var w := KeptWords(tokens, threshold)[k];
            w != "" && !IsSpace(w[0]) &&
            exists i :: 0 <= i < |tokens| && tokens[i].conf > threshold && Strip(tokens[i].text) == w
    decreases |tokens|
  {
    var init := tokens[..|tokens| - 1];
    var t := tokens[|tokens| - 1];
    var prev := KeptWords(init, threshold);
    var tail := if t.conf > threshold && Strip(t.text) != "" then [Strip(t.text)] else [];
    assert KeptWords(tokens, threshold) == prev + tail;
    if k < |prev| {
      KeptWordsSound(init, threshold, k);
      var i :| 0 <= i < |init| && init[i].conf > threshold && Strip(init[i].text) == prev[k];
      assert tokens[i] == init[i];
      assert KeptWords(tokens, threshold)[k] == prev[k];
    } else {
      assert KeptWords(tokens, threshold)[k] == Strip(t.text);
      assert tokens[|tokens| - 1].conf > threshold;
    }
  }

  /** Every confident word with visible text is kept. */
  lemma {:induction false} KeptWordsComplete(tokens: seq<Token>, threshold: int, i: nat)
    requires i < |tokens| && tokens[i].conf > threshold && Strip(tokens[i].text) != ""
    ensures Strip(tokens[i].text) in KeptWords(tokens, threshold)
    decreases |tokens|
  {
    var init := tokens[..|tokens| - 1];
    if i < |tokens| - 1 {
      KeptWordsComplete(init, threshold, i);
      assert init[i] == tokens[i];
    }
  }

  lemma KeptWordsSnoc(tokens: seq<Token>, threshold: int, i: nat)
    requires i < |tokens|
    ensures KeptWords(tokens[..i + 1], threshold) ==
            KeptWords(tokens[..i], threshold) +
              (if tokens[i].conf > threshold && Strip(tokens[i].text) != ""
               then [Strip(tokens[i].text)] else [])
  {
    assert tokens[..i + 1][..i] == tokens[..i];
  }

  /** `detect_text_tesseract`. `available` is whether the word-level engine
      is installed; `run` is its output on the preprocessed capture, None when
      preprocessing or recognition raises. The result is the match verdict on
      the kept words joined by spaces, and that joined text. */
  method DetectTextTesseract(available: bool, run: Option<seq<Token>>, target: string,
                             threshold: int)
    returns (found: bool, text: string)
    ensures !available || run.None? ==> !found && text == ""
    ensures available && run.Some? ==>
              text == Join(KeptWords(run.value, threshold), " ") &&
              (found <==> ContainsIgnoringCase(text, target))
  {
    if !available || run.None? {
      return false, "";
    }
    var tokens := run.value;
    var detected: seq<string> := [];
    var i := 0;
    while i < |tokens|
      invariant 0 <= i <= |tokens|
      invariant detected == KeptWords(tokens[..i], threshold)
    {
      KeptWordsSnoc(tokens, threshold, i);
      if tokens[i].conf > threshold {
        var w := Strip(tokens[i].text);
        if w != "" {
          detected := detected + [w];
        }
      }
      i := i + 1;
    }
    assert tokens[..|tokens|] == tokens;
    text := Join(detected, " ");
    found := ContainsIgnoringCase(text, target);
  }

  /** `detect_text_easyocr` once the engine has been asked for: nothing when
      there is no engine or recognition raises; otherwise the recognised lines
      joined by spaces, and whether one of the lines holds the target. */
  function EasyOcrVerdict(readerReady: bool, run: OcrRun, target: string): (r: (bool, string))
    ensures !readerReady || run.OcrRaised? ==> r == (false, "")
    ensures readerReady && run.Recognised? ==> r.1 == Join(run.texts, " ")
    ensures r.0 ==> readerReady && run.Recognised?
    ensures readerReady && run.Recognised? ==>
              (r.0 <==> exists k :: 0 <= k < |run.texts| && ContainsIgnoringCase(run.texts[k], target))
  {
    if !readerReady || run.OcrRaised? then (false, "")
    else
      (exists k :: 0 <= k < |run.texts| && ContainsIgnoringCase(run.texts[k], target),
       Join(run.texts, " "))
  }

  /** Case folding keeps substrings substrings. */
  lemma LowerKeepsInfix(a: string, b: string)
    requires IsInfix(a, b)
    ensures IsInfix(Lower(a), Lower(b))
  {
    var i :| 0 <= i <= |b| - |a| && OccursAt(a, b, i);
    assert Lower(b)[i..i + |a|] == Lower(a) by {
      forall k | 0 <= k < |a| ensures Lower(b)[i + k] == Lower(a)[k] {
        assert b[i + k] == b[i..i + |a|][k];
      }
    }
    assert OccursAt(Lower(a), Lower(b), i);
  }

  /** The line-level verdict is a match on one line, so whenever it finds the
      target the joined text it reports holds the target too. */
  lemma {:induction false} EasyOcrFoundInReportedText(run: OcrRun, target: string)
    requires EasyOcrVerdict(true, run, target).0
    ensures ContainsIgnoringCase(EasyOcrVerdict(true, run, target).1, target)
  {
    var k :| 0 <= k < |run.texts| && ContainsIgnoringCase(run.texts[k], target);
    var joined := Join(run.texts, " ");
    PartOccursInJoin(run.texts, " ", k);
    LowerKeepsInfix(run.texts[k], joined);
    InfixTransitive(Lower(target), Lower(run.texts[k]), Lower(joined));
  }

  /** The converse fails: a target split over two lines is in the joined text
      but not found by the line-level engine. */
  lemma SplitTargetMissedByLineEngine()
    ensures !EasyOcrVerdict(true, Recognised(["a", "b"]), "a b").0
    ensures ContainsIgnoringCase(EasyOcrVerdict(true, Recognised(["a", "b"]), "a b").1, "a b")
  {
    var texts := ["a", "b"];
    assert Join(texts, " ") == "a b";
    assert Lower("a b") == "a b";
    assert OccursAt("a b", "a b", 0);
    forall k | 0 <= k < |texts| ensures !ContainsIgnoringCase(texts[k], "a b") {
      assert |Lower(texts[k])| < |Lower("a b")|;
    }
  }

  /** The word-level engine matches on its joined text, so it finds the same
      split target in the same two words. */
  lemma SplitTargetFoundByWordEngine()
    ensures ContainsIgnoringCase(Join(KeptWords([Token(90, "a"), Token(90, "b")], 30), " "), "a b")
  {
    var tokens := [Token(90, "a"), Token(90, "b")];
    StripKeeps("a");
    StripKeeps("b");
    assert tokens[..1][..0] == [];
    assert KeptWords(tokens[..1], 30) == ["a"];
    assert KeptWords(tokens, 30) == ["a", "b"];
    assert Join(["a", "b"], " ") == "a b";
    assert Lower("a b") == "a b";
    assert OccursAt("a b", "a b", 0);
  }

  /** The template file a target is matched against. */
  function TemplateName(target: string): string {
    Lower(target)
  }

  /** `detect_text_template_matching` on the template named after the
      target. `templates` are the names with a file under the template
      directory; `score` is the best normalised correlation, None when the
      matching raises. */
  function TemplateFound(templates: set<string>, name: string, score: Option<real>,
                         threshold: real): (found: bool)
    ensures found ==> name in templates && score.Some?
    ensures name in templates && score.Some? ==> (found <==> score.value >= threshold)
  {
    name in templates && score.Some? && score.value >= threshold
  }

  /** A stricter threshold never turns a miss into a match. */
  lemma TemplateThresholdMonotone(templates: set<string>, name: string, score: Option<real>,
                                  lo: real, hi: real)
    requires lo <= hi && TemplateFound(templates, name, score, hi)
    ensures TemplateFound(templates, name, score, lo)
  {
  }

  /** Which recogniser produced a positive verdict. */
  datatype Source = WordEngine | LineEngine | Template | NoSource

  /** `detect_text_in_region`. When capture fails it answers (false, "")
      without asking for any engine. Otherwise the recognisers are tried in
      order of preference and the first positive one wins, with its text (the
      target itself for a template hit); when all miss, the text is the
      fallback engine's. */
  method DetectTextInRegion(easySlot: ReaderSlot, easyInit: Option<Reader>, captured: bool,
                            wordAvailable: bool, wordRun: Option<seq<Token>>,
                            lineRun: OcrRun, templates: set<string>, score: Option<real>,
                            target: string)
    returns (found: bool, text: string, source: Source)
    modifies easySlot
    ensures !captured ==> !found && text == "" && source == NoSource && easySlot.reader == old(easySlot.reader)
    ensures found <==> source != NoSource
    ensures var wordHit := wordAvailable && wordRun.Some? &&
                           ContainsIgnoringCase(Join(KeptWords(wordRun.value, WordConfidenceThreshold), " "), target);
            var line := EasyOcrVerdict(old(easySlot.reader).Some? || easyInit.Some?, lineRun, target);
            var templateHit := TemplateFound(templates, TemplateName(target), score, TemplateThreshold);
            captured ==>
              (source == WordEngine <==> wordHit) &&
              (wordHit ==> easySlot.reader == old(easySlot.reader)) &&
              (source == WordEngine ==> text == Join(KeptWords(wordRun.value, WordConfidenceThreshold), " ")) &&
              (source == LineEngine <==> !wordHit && line.0) &&
              (source == Template <==> !wordHit && !line.0 && templateHit) &&
              (source == Template ==> text == target) &&
              (!wordHit ==> easySlot.reader == (if old(easySlot.reader).Some? then old(easySlot.reader) else easyInit)) &&
              (!wordHit && (line.0 || !templateHit) ==> text == line.1)
  {
    if !captured {
      return false, "", NoSource;
    }
    if wordAvailable {
      found, text := DetectTextTesseract(wordAvailable, wordRun, target, WordConfidenceThreshold);
      if found {
        return true, text, WordEngine;
      }
    }
    var reader := easySlot.Get(easyInit);
    var line := EasyOcrVerdict(reader.Some?, lineRun, target);
    found, text := line.0, line.1;
    if found {
      return true, text, LineEngine;
    }
    if TemplateFound(templates, TemplateName(target), score, TemplateThreshold) {
      return true, target, Template;
    }
    source := NoSource;
  }

  /** `wait_for_save_processing_complete` of the second generation: the same
      Processing -> Done state machine over the multi-recogniser verdicts,
      with no engine check, ending at the first explicit or implicit
      completion and letting the caller go on at the deadline. */
  method WaitForSaveProcessingComplete(initialWait: int, checkInterval: int, timeout: int,
                                       polls: seq<QueuePoll>)
    returns (ok: bool, verdict: SaveWait)
    requires checkInterval > 0
    requires |polls| >= Iterations(initialWait, checkInterval, timeout)
    ensures ok && !verdict.ReaderMissing?
    ensures SaveVerdictFits(polls, Iterations(initialWait, checkInterval, timeout), verdict)
  {
    var total := Iterations(initialWait, checkInterval, timeout);
    var elapsed := initialWait;
    var n := 0;
    var processingDetected := false;
    var doneDetected := false;
    while elapsed < timeout
      invariant n + Iterations(elapsed, checkInterval, timeout) == total
      invariant processingDetected == ProcessingSeen(polls, n)
      invariant forall j :: 0 <= j < n ==> !EndsAt(polls, j)
      decreases timeout - elapsed
    {
      var p := polls[n];
      ProcessingSeenStep(polls, n);
      var seenBefore := processingDetected;
      if p.processing && !processingDetected {
        processingDetected := true;
      }
      if p.done {
        return true, DoneSeen(n);
      }
      if processingDetected && !p.processing {
        assert seenBefore;
        if p.recheckDone {
          return true, ImplicitlyDone(n);
        }
        if !p.recheckProcessing {
          return true, ImplicitlyDone(n);
        }
      }
      elapsed := elapsed + checkInterval;
      n := n + 1;
    }
    return true, SaveTimedOut(n, processingDetected, doneDetected);
  }

  /** A save that never shows Processing and never Done runs to the deadline
      and still lets the caller go on. */
  method SilentQueueScenario() returns (ok: bool, verdict: SaveWait)
    ensures ok && verdict == SaveTimedOut(3, false, false)
  {
    var quiet := QueuePoll(false, false, false, false);
    var polls := [quiet, quiet, quiet];
    assert Iterations(15, 15, 60) == 3;
    ok, verdict := WaitForSaveProcessingComplete(15, 15, 60, polls);
    assert !ProcessingSeen(polls, 3);
    assert !EndsAt(polls, 0) && !EndsAt(polls, 1) && !EndsAt(polls, 2);
  }
}
