/** Icon detection by template matching (utils/icon_detector.py): a cached
    template store, a single matching pass, the best of several matching
    methods, the best over several template scales, and the wait for an icon
    to appear in a dialog (or in a fallback window). The matcher itself is
    outside the model: each pass is given as its extreme values and their
    locations, or as a raise. */
module IconDetection {
  import opened Common

  // ---------------------------------------------------------------------
  // Keeping the best of a series of scored attempts.

  /** A scored attempt: did it reach its threshold, its confidence, and what
      it found (a location, or a location and a scale). */
  datatype Scored<T> = Scored(found: bool, confidence: real, tag: T)

  /** One step of the best-of loops: a strictly better attempt replaces the
      best confidence and tag, and only such an attempt can raise the flag. */
  function Improve<T>(best: Scored<T>, a: Scored<T>): Scored<T> {
    if a.confidence > best.confidence then Scored(best.found || a.found, a.confidence, a.tag)
    else best
  }

  /** The state of a best-of loop after the given attempts. */
  function BestOf<T>(init: Scored<T>, attempts: seq<Scored<T>>): Scored<T>
    decreases |attempts|
  {
    if |attempts| == 0 then init
    else Improve(BestOf(init, attempts[..|attempts| - 1]), attempts[|attempts| - 1])
  }

  lemma BestOfSnoc<T>(init: Scored<T>, attempts: seq<Scored<T>>, a: Scored<T>)
    ensures BestOf(init, attempts + [a]) == Improve(BestOf(init, attempts), a)
  {
    assert (attempts + [a])[..|attempts|] == attempts;
  }

  /** The best-of result is the maximum confidence, and unless no attempt
      beat the initial value its tag is that of the first attempt reaching
      the maximum. */
  lemma {:induction false} BestOfIsMaximum<T>(init: Scored<T>, attempts: seq<Scored<T>>)
    ensures var r := BestOf(init, attempts);
            r.confidence >= init.confidence &&
            (forall k :: 0 <= k < |attempts| ==> r.confidence >= attempts[k].confidence) &&
            (r == init ||
             exists k :: 0 <= k < |attempts| && r.confidence == attempts[k].confidence &&
                         r.confidence > init.confidence && r.tag == attempts[k].tag &&
                         forall j :: 0 <= j < k ==> attempts[j].confidence < r.confidence)
    decreases |attempts|
  {
    if |attempts| > 0 {
      var n := |attempts| - 1;
      var prefix := attempts[..n];
      BestOfIsMaximum(init, prefix);
      var b := BestOf(init, prefix);
      var a := attempts[n];
      assert forall k :: 0 <= k < n ==> attempts[k] == prefix[k];
      if a.confidence > b.confidence {
        assert BestOf(init, attempts).tag == attempts[n].tag;
      } else if b != init {
        var k :| 0 <= k < |prefix| && b.confidence == prefix[k].confidence &&
                 b.confidence > init.confidence && b.tag == prefix[k].tag &&
                 forall j :: 0 <= j < k ==> prefix[j].confidence < b.confidence;
        assert attempts[k] == prefix[k];
      }
    }
  }

  /** An attempt whose flag says exactly whether it reached the threshold. */
  predicate Consistent<T>(s: Scored<T>, threshold: real) {
    s.found <==> s.confidence >= threshold
  }

  /** Best-of keeps that: from consistent attempts it yields a consistent
      result. */
  lemma {:induction false} BestOfConsistent<T>(init: Scored<T>, attempts: seq<Scored<T>>, threshold: real)
    requires Consistent(init, threshold)
    requires forall k :: 0 <= k < |attempts| ==> Consistent(attempts[k], threshold)
    ensures Consistent(BestOf(init, attempts), threshold)
    decreases |attempts|
  {
    if |attempts| > 0 {
      var n := |attempts| - 1;
      assert forall k :: 0 <= k < n ==> attempts[..n][k] == attempts[k];
      BestOfConsistent(init, attempts[..n], threshold);
    }
  }

  /** From an unfound start below the threshold, the best-of loop reports a
      match exactly when one of the attempts matched. */
  lemma BestOfFoundIffAny<T>(init: Scored<T>, attempts: seq<Scored<T>>, threshold: real)
    requires !init.found && init.confidence < threshold
    requires forall k :: 0 <= k < |attempts| ==> Consistent(attempts[k], threshold)
    ensures BestOf(init, attempts).found <==> exists k :: 0 <= k < |attempts| && attempts[k].found
  {
    BestOfConsistent(init, attempts, threshold);
    BestOfIsMaximum(init, attempts);
  }

  // ---------------------------------------------------------------------
  // One matching pass.

  /** The matching methods of the matcher. */
  datatype MatchMethod = SqDiff | SqDiffNormed | CCorr | CCorrNormed | CCoeff | CCoeffNormed

  predicate IsSquaredDifference(m: MatchMethod) {
    m == SqDiff || m == SqDiffNormed
  }

  /** The extreme values of a matching pass and where they occur. */
  datatype Extremes = Extremes(minVal: real, maxVal: real, minLoc: Point, maxLoc: Point)

  /** The result of a pass that raised, and the start of the best-of loops. */
  const NoMatch: Scored<Point> := Scored(false, 0.0, Point(0, 0))

  /** `match_template`. For squared-difference methods the best place is the
      minimum and the confidence is one minus it; for the others it is the
      maximum. A pass that raises yields no match, confidence 0 at the
      origin. */
  function MatchTemplate(pass: Option<Extremes>, m: MatchMethod, threshold: real): (r: Scored<Point>)
    ensures pass.None? ==> r == NoMatch
    ensures pass.Some? && IsSquaredDifference(m) ==>
              r.confidence == 1.0 - pass.value.minVal && r.tag == pass.value.minLoc
    ensures pass.Some? && !IsSquaredDifference(m) ==>
              r.confidence == pass.value.maxVal && r.tag == pass.value.maxLoc
    ensures pass.Some? ==> Consistent(r, threshold)
  {
    match pass
    case None => NoMatch
    case Some(e) =>
      var conf := if IsSquaredDifference(m) then 1.0 - e.minVal else e.maxVal;
      var loc := if IsSquaredDifference(m) then e.minLoc else e.maxLoc;
      Scored(conf >= threshold, conf, loc)
  }

  /** With a positive threshold even a raised pass is consistent. */
  lemma MatchTemplateConsistent(pass: Option<Extremes>, m: MatchMethod, threshold: real)
    requires threshold > 0.0
    ensures Consistent(MatchTemplate(pass, m, threshold), threshold)
  {
  }

  // ---------------------------------------------------------------------
  // Best of several methods.

  /** The methods tried, in order. */
  const Methods: seq<MatchMethod> := [CCoeffNormed, CCorrNormed, SqDiffNormed]

  /** One pass per method, in order. */
  function MethodAttempts(passes: seq<Option<Extremes>>, threshold: real): (r: seq<Scored<Point>>)
    requires |passes| == |Methods|
    ensures |r| == |Methods|
    ensures forall k :: 0 <= k < |r| ==> r[k] == MatchTemplate(passes[k], Methods[k], threshold)
  {
    seq(|Methods|, k requires 0 <= k < |Methods| => MatchTemplate(passes[k], Methods[k], threshold))
  }

  /** `match_template_multi_method`. */
  method MatchTemplateMultiMethod(passes: seq<Option<Extremes>>, threshold: real)
    returns (r: Scored<Point>)
    requires |passes| == |Methods|
    ensures r == BestOf(NoMatch, MethodAttempts(passes, threshold))
  {
    var attempts := MethodAttempts(passes, threshold);
    var bestConfidence := 0.0;
    var bestLocation := Point(0, 0);
    var found := false;
    for k := 0 to |Methods|
      invariant Scored(found, bestConfidence, bestLocation) == BestOf(NoMatch, attempts[..k])
    {
      assert attempts[..k + 1][..k] == attempts[..k];
      var m := MatchTemplate(passes[k], Methods[k], threshold);
      if m.confidence > bestConfidence {
        bestConfidence := m.confidence;
        bestLocation := m.tag;
        if m.found {
          found := true;
        }
      }
    }
    assert attempts[..|Methods|] == attempts;
    r := Scored(found, bestConfidence, bestLocation);
  }

  /** With a positive threshold the multi-method result matches exactly when
      one method matched, and its flag agrees with its confidence. */
  lemma MultiMethodFound(passes: seq<Option<Extremes>>, threshold: real)
    requires |passes| == |Methods| && threshold > 0.0
    ensures var r := BestOf(NoMatch, MethodAttempts(passes, threshold));
            Consistent(r, threshold) &&
            (r.found <==> exists k :: 0 <= k < |Methods| && MatchTemplate(passes[k], Methods[k], threshold).found)
  {
    var attempts := MethodAttempts(passes, threshold);
    forall k | 0 <= k < |attempts| ensures Consistent(attempts[k], threshold) {
      MatchTemplateConsistent(passes[k], Methods[k], threshold);
    }
    BestOfConsistent(NoMatch, attempts, threshold);
    BestOfFoundIffAny(NoMatch, attempts, threshold);
  }

  /** At a zero threshold that fails: three passes of confidence exactly 0
      each reach the threshold, yet none beats the initial 0 and the result
      says no match. */
  lemma ZeroThresholdLosesMatch()
    ensures var passes := [Some(Extremes(1.0, 0.0, Point(1, 1), Point(2, 2))),
                           Some(Extremes(1.0, 0.0, Point(1, 1), Point(2, 2))),
                           Some(Extremes(1.0, 0.0, Point(1, 1), Point(2, 2)))];
            MatchTemplate(passes[0], Methods[0], 0.0).found &&
            !BestOf(NoMatch, MethodAttempts(passes, 0.0)).found
  {
    var passes := [Some(Extremes(1.0, 0.0, Point(1, 1), Point(2, 2))),
                   Some(Extremes(1.0, 0.0, Point(1, 1), Point(2, 2))),
                   Some(Extremes(1.0, 0.0, Point(1, 1), Point(2, 2)))];
    var attempts := MethodAttempts(passes, 0.0);
    assert forall k :: 0 <= k < 3 ==> attempts[k].confidence == 0.0;
    assert attempts[..1][..0] == [];
    assert BestOf(NoMatch, attempts[..1]) == NoMatch;
    assert attempts[..2][..1] == attempts[..1];
    assert BestOf(NoMatch, attempts[..2]) == NoMatch;
    assert attempts[..3][..2] == attempts[..2];
    assert attempts == attempts[..3];
  }

  // ---------------------------------------------------------------------
  // Best over several template scales.

  /** The size of an image or template, in pixels. */
  datatype Image = Image(width: nat, height: nat)

  /** The scales tried by default, in order. */
  const Scales: seq<real> := [0.3, 0.5, 0.75, 1.0, 1.25, 1.5, 2.0, 2.5, 3.0]

  /** A match found at a location with the template scaled by `scale`. */
  datatype Placement = Placement(location: Point, scale: real)

  /** The start of the multiscale loop: no match, confidence 0, scale 1. */
  const NoPlacement: Scored<Placement> := Scored(false, 0.0, Placement(Point(0, 0), 1.0))

  /** A scale is tried only if the truncated scaled template is at least 5
      pixels each way and fits inside the image. */
  predicate ScaleFits(template: Image, image: Image, scale: real) {
    var w := Trunc(template.width as real * scale);
    var h := Trunc(template.height as real * scale);
    !(w < 5 || h < 5 || w > image.width || h > image.height)
  }

  /** `passes[k]` holds one pass per method for scale k. */
  predicate WellShaped(scales: seq<real>, passes: seq<seq<Option<Extremes>>>) {
    |passes| == |scales| && forall k :: 0 <= k < |passes| ==> |passes[k]| == |Methods|
  }

  /** The multiscale attempt for one scale: the multi-method result, tagged
      with the scale. */
  function ScaleAttempt(passes: seq<Option<Extremes>>, scale: real, threshold: real): Scored<Placement>
    requires |passes| == |Methods|
  {
    var mm := BestOf(NoMatch, MethodAttempts(passes, threshold));
    Scored(mm.found, mm.confidence, Placement(mm.tag, scale))
  }

  /** The attempts of the scales that fit, in order. */
  function ScaleAttempts(template: Image, image: Image, scales: seq<real>,
                         passes: seq<seq<Option<Extremes>>>, threshold: real): seq<Scored<Placement>>
    requires WellShaped(scales, passes)
    decreases |scales|
  {
    if |scales| == 0 then []
    else
      var n := |scales| - 1;
      ScaleAttempts(template, image, scales[..n], passes[..n], threshold) +
        (if ScaleFits(template, image, scales[n]) then [ScaleAttempt(passes[n], scales[n], threshold)] else [])
  }

  /** The attempts are exactly those of the scales that fit. */
  lemma {:induction false} ScaleAttemptsMembers(template: Image, image: Image, scales: seq<real>,
                                                passes: seq<seq<Option<Extremes>>>, threshold: real,
                                                a: Scored<Placement>)
    requires WellShaped(scales, passes)
    ensures a in ScaleAttempts(template, image, scales, passes, threshold) <==>
            exists k :: 0 <= k < |scales| && ScaleFits(template, image, scales[k]) &&
                        a == ScaleAttempt(passes[k], scales[k], threshold)
    decreases |scales|
  {
    if |scales| > 0 {
      var n := |scales| - 1;
      ScaleAttemptsMembers(template, image, scales[..n], passes[..n], threshold, a);
      assert forall k :: 0 <= k < n ==> scales[..n][k] == scales[k] && passes[..n][k] == passes[k];
    }
  }

  lemma ScaleAttemptsStep(template: Image, image: Image, scales: seq<real>,
                          passes: seq<seq<Option<Extremes>>>, threshold: real, k: nat)
    requires WellShaped(scales, passes) && k < |scales|
    ensures WellShaped(scales[..k], passes[..k]) && WellShaped(scales[..k + 1], passes[..k + 1])
    ensures ScaleAttempts(template, image, scales[..k + 1], passes[..k + 1], threshold) ==
            ScaleAttempts(template, image, scales[..k], passes[..k], threshold) +
            (if ScaleFits(template, image, scales[k]) then [ScaleAttempt(passes[k], scales[k], threshold)] else [])
  {
    assert scales[..k + 1][..k] == scales[..k] && passes[..k + 1][..k] == passes[..k];
  }

  /** `match_template_multiscale`. */
  method MatchTemplateMultiscale(template: Image, image: Image, scales: seq<real>,
                                 passes: seq<seq<Option<Extremes>>>, threshold: real)
    returns (r: Scored<Placement>)
    requires WellShaped(scales, passes)
    ensures r == BestOf(NoPlacement, ScaleAttempts(template, image, scales, passes, threshold))
  {
    var bestConfidence := 0.0;
    var bestLocation := Point(0, 0);
    var bestScale := 1.0;
    var found := false;
    for k := 0 to |scales|
      invariant Scored(found, bestConfidence, Placement(bestLocation, bestScale)) ==
                BestOf(NoPlacement, ScaleAttempts(template, image, scales[..k], passes[..k], threshold))
    {
      ScaleAttemptsStep(template, image, scales, passes, threshold, k);
      ghost var before := ScaleAttempts(template, image, scales[..k], passes[..k], threshold);
      if ScaleFits(template, image, scales[k]) {
        var mm := MatchTemplateMultiMethod(passes[k], threshold);
        ghost var a := ScaleAttempt(passes[k], scales[k], threshold);
        assert a == Scored(mm.found, mm.confidence, Placement(mm.tag, scales[k]));
        BestOfSnoc(NoPlacement, before, a);
        if mm.confidence > bestConfidence {
          bestConfidence := mm.confidence;
          bestLocation := mm.tag;
          bestScale := scales[k];
          if mm.found {
            found := true;
          }
        }
      } else {
        assert before + [] == before;
      }
    }
    assert scales[..|scales|] == scales && passes[..|passes|] == passes;
    r := Scored(found, bestConfidence, Placement(bestLocation, bestScale));
  }

  /** With a positive threshold the multiscale detector reports a match
      exactly when some method matched at some scale that fits. */
  lemma MultiscaleFound(template: Image, image: Image, scales: seq<real>,
                        passes: seq<seq<Option<Extremes>>>, threshold: real)
    requires WellShaped(scales, passes) && threshold > 0.0
    ensures BestOf(NoPlacement, ScaleAttempts(template, image, scales, passes, threshold)).found <==>
            exists k, m :: 0 <= k < |scales| && 0 <= m < |Methods| && ScaleFits(template, image, scales[k]) &&
                           MatchTemplate(passes[k][m], Methods[m], threshold).found
  {
    var attempts := ScaleAttempts(template, image, scales, passes, threshold);
    forall i | 0 <= i < |attempts|
      ensures Consistent(attempts[i], threshold)
      ensures attempts[i].found <==>
              exists k, m :: 0 <= k < |scales| && 0 <= m < |Methods| && ScaleFits(template, image, scales[k]) &&
                             attempts[i] == ScaleAttempt(passes[k], scales[k], threshold) &&
                             MatchTemplate(passes[k][m], Methods[m], threshold).found
    {
      ScaleAttemptsMembers(template, image, scales, passes, threshold, attempts[i]);
      var k :| 0 <= k < |scales| && ScaleFits(template, image, scales[k]) &&
               attempts[i] == ScaleAttempt(passes[k], scales[k], threshold);
      MultiMethodFound(passes[k], threshold);
      if attempts[i].found {
        var m :| 0 <= m < |Methods| && MatchTemplate(passes[k][m], Methods[m], threshold).found;
      }
      forall k2, m | 0 <= k2 < |scales| && 0 <= m < |Methods| &&
                     attempts[i] == ScaleAttempt(passes[k2], scales[k2], threshold) &&
                     MatchTemplate(passes[k2][m], Methods[m], threshold).found
        ensures attempts[i].found
      {
        MultiMethodFound(passes[k2], threshold);
      }
    }
    BestOfFoundIffAny(NoPlacement, attempts, threshold);
    forall k, m | 0 <= k < |scales| && 0 <= m < |Methods| && ScaleFits(template, image, scales[k]) &&
                  MatchTemplate(passes[k][m], Methods[m], threshold).found
      ensures exists i :: 0 <= i < |attempts| && attempts[i].found
    {
      var a := ScaleAttempt(passes[k], scales[k], threshold);
      ScaleAttemptsMembers(template, image, scales, passes, threshold, a);
      MultiMethodFound(passes[k], threshold);
      var i :| 0 <= i < |attempts| && attempts[i] == a;
    }
  }

  /** A template at most one pixel wide is too small at every default scale:
      the multiscale detector then always answers no match at scale 1. */
  lemma TinyTemplateNeverTried(template: Image, image: Image, passes: seq<seq<Option<Extremes>>>,
                               threshold: real)
    requires WellShaped(Scales, passes) && template.width <= 1
    ensures ScaleAttempts(template, image, Scales, passes, threshold) == []
    ensures BestOf(NoPlacement, ScaleAttempts(template, image, Scales, passes, threshold)) == NoPlacement
  {
    forall k | 0 <= k < |Scales| ensures !ScaleFits(template, image, Scales[k]) {
      assert 0.0 < Scales[k] <= 3.0;
      assert template.width as real * Scales[k] <= 3.0;
    }
    NoFitNoAttempts(template, image, Scales, passes, threshold);
  }

  lemma {:induction false} NoFitNoAttempts(template: Image, image: Image, scales: seq<real>,
                                           passes: seq<seq<Option<Extremes>>>, threshold: real)
    requires WellShaped(scales, passes)
    requires forall k :: 0 <= k < |scales| ==> !ScaleFits(template, image, scales[k])
    ensures ScaleAttempts(template, image, scales, passes, threshold) == []
    decreases |scales|
  {
    if |scales| > 0 {
      var n := |scales| - 1;
      assert forall k :: 0 <= k < n ==> scales[..n][k] == scales[k];
      NoFitNoAttempts(template, image, scales[..n], passes[..n], threshold);
    }
  }

  // ---------------------------------------------------------------------
  // The detector object and its template cache.

  /** `IconDetector`: templates are read from the template directory once and
      then served from the cache. */
  class IconDetector {
    var templates: map<string, Image>

    constructor ()
      ensures templates == map[]
    {
      templates := map[];
    }

    /** `load_template`. `fileExists` is whether `<name>.png` is in the
        template directory and `read` what reading it yields (None when it
        cannot be decoded or the read raises); neither is consulted on a
        cache hit, and nothing is cached on failure. */
    method LoadTemplate(name: string, fileExists: bool, read: Option<Image>) returns (t: Option<Image>)
      modifies this
      ensures name in old(templates) ==> t == Some(old(templates)[name]) && templates == old(templates)
      ensures name !in old(templates) && fileExists && read.Some? ==>
                t == read && templates == old(templates)[name := read.value]
      ensures name !in old(templates) && !(fileExists && read.Some?) ==>
                t == None && templates == old(templates)
    {
      if name in templates {
        return Some(templates[name]);
      }
      if !fileExists || read.None? {
        return None;
      }
      templates := templates[name := read.value];
      t := read;
    }

    /** `detect_icon_in_region`: no match, confidence 0, when the template
        cannot be had or the capture fails; otherwise the multiscale result
        over the default scales, or a single pass of the default method. */
    method DetectIconInRegion(name: string, fileExists: bool, read: Option<Image>,
                              capture: Option<Image>, threshold: real, multiscale: bool,
                              passes: seq<seq<Option<Extremes>>>, single: Option<Extremes>)
      returns (found: bool, confidence: real)
      requires WellShaped(Scales, passes)
      modifies this
      ensures templates == if name in old(templates) || !fileExists || read.None? then old(templates)
                           else old(templates)[name := read.value]
      ensures var t := if name in old(templates) then Some(old(templates)[name])
                       else if fileExists then read else None;
              if t.None? || capture.None? then !found && confidence == 0.0
              else if multiscale then
                var r := BestOf(NoPlacement, ScaleAttempts(t.value, capture.value, Scales, passes, threshold));
                found == r.found && confidence == r.confidence
              else
                var r := MatchTemplate(single, CCoeffNormed, threshold);
                found == r.found && confidence == r.confidence
    {
      var template := LoadTemplate(name, fileExists, read);
      if template.None? || capture.None? {
        return false, 0.0;
      }
      if multiscale {
        var r := MatchTemplateMultiscale(template.value, capture.value, Scales, passes, threshold);
        found, confidence := r.found, r.confidence;
      } else {
        var r := MatchTemplate(single, CCoeffNormed, threshold);
        found, confidence := r.found, r.confidence;
      }
    }
  }

  /** Once a template is cached, a changed or removed file does not matter. */
  method LoadTwice(d: IconDetector, name: string, fileExists: bool, read: Option<Image>,
                   laterExists: bool, laterRead: Option<Image>)
    returns (first: Option<Image>, second: Option<Image>)
    modifies d
    ensures first.Some? ==> second == first
  {
    first := d.LoadTemplate(name, fileExists, read);
    second := d.LoadTemplate(name, laterExists, laterRead);
  }

  // ---------------------------------------------------------------------
  // Waiting for an icon to appear.

  /** What one poll of the icon wait observes: what looking up the dialog and
      the fallback window by title yields (0 when absent), whether the
      search region could be computed, and whether the icon was detected. */
  datatype IconPoll = IconPoll(dialogHwnd: int, fallbackHwnd: int, regionOk: bool, found: bool)

  /** A Python string argument that is truthy. */
  predicate Truthy(s: Option<string>) {
    s.Some? && s.value != ""
  }

  /** The wait has switched to the fallback window by poll n: a fallback was
      given and the dialog was missing at some poll before n. */
  ghost predicate SwitchedBefore(polls: seq<IconPoll>, fallbackOn: bool, n: int) {
    fallbackOn && exists j :: 0 <= j < n && j < |polls| && polls[j].dialogHwnd == 0
  }

  /** The window searched at poll i. */
  ghost function WindowAt(polls: seq<IconPoll>, fallbackOn: bool, i: int): int
    requires 0 <= i < |polls|
  {
    if SwitchedBefore(polls, fallbackOn, i + 1) then polls[i].fallbackHwnd else polls[i].dialogHwnd
  }

  /** Poll i detects the icon. */
  ghost predicate HitAt(polls: seq<IconPoll>, fallbackOn: bool, i: int) {
    0 <= i < |polls| && WindowAt(polls, fallbackOn, i) != 0 && polls[i].regionOk && polls[i].found
  }

  lemma SwitchedBeforeStep(polls: seq<IconPoll>, fallbackOn: bool, n: nat)
    requires n < |polls|
    ensures SwitchedBefore(polls, fallbackOn, n + 1) <==>
            SwitchedBefore(polls, fallbackOn, n) || (fallbackOn && polls[n].dialogHwnd == 0)
  {
    if SwitchedBefore(polls, fallbackOn, n + 1) && polls[n].dialogHwnd != 0 {
      var j :| 0 <= j < n + 1 && j < |polls| && polls[j].dialogHwnd == 0;
      assert j < n;
    }
  }

  datatype IconWait = IconSeen(poll: nat, viaFallback: bool) | IconTimedOut(polls: nat, fallbackAttempted: bool)

  /** `wait_for_icon_appear`: true at the first poll that detects the icon in
      the window being watched, false at the deadline. The wait switches to
      the fallback window, for good, at the first poll that misses the dialog. */
  method WaitForIconAppear(fallbackTitle: Option<string>, checkInterval: int, timeout: int,
                           polls: seq<IconPoll>)
    returns (ok: bool, verdict: IconWait)
    requires checkInterval > 0
    requires |polls| >= Iterations(0, checkInterval, timeout)
    ensures ok <==> verdict.IconSeen?
    ensures verdict.IconSeen? ==>
              verdict.poll < Iterations(0, checkInterval, timeout) &&
              HitAt(polls, Truthy(fallbackTitle), verdict.poll) &&
              (forall j :: 0 <= j < verdict.poll ==> !HitAt(polls, Truthy(fallbackTitle), j)) &&
              verdict.viaFallback == SwitchedBefore(polls, Truthy(fallbackTitle), verdict.poll + 1)
    ensures verdict.IconTimedOut? ==>
              verdict.polls == Iterations(0, checkInterval, timeout) &&
              (forall j :: 0 <= j < verdict.polls ==> !HitAt(polls, Truthy(fallbackTitle), j)) &&
              verdict.fallbackAttempted == SwitchedBefore(polls, Truthy(fallbackTitle), verdict.polls)
  {
    var fallbackOn := Truthy(fallbackTitle);
    var total := Iterations(0, checkInterval, timeout);
    var elapsed := 0;
    var n := 0;
    var switched := false;
    while elapsed < timeout
      invariant n + Iterations(elapsed, checkInterval, timeout) == total
      invariant switched == SwitchedBefore(polls, fallbackOn, n)
      invariant forall j :: 0 <= j < n ==> !HitAt(polls, fallbackOn, j)
      decreases timeout - elapsed
    {
      var p := polls[n];
      SwitchedBeforeStep(polls, fallbackOn, n);
      var hwnd := if switched then p.fallbackHwnd else p.dialogHwnd;
      if hwnd == 0 && !switched && fallbackOn {
        switched := true;
        hwnd := p.fallbackHwnd;
      }
      assert hwnd == WindowAt(polls, fallbackOn, n);
      if hwnd != 0 && p.regionOk && p.found {
        return true, IconSeen(n, switched);
      }
      elapsed := elapsed + checkInterval;
      n := n + 1;
    }
    return false, IconTimedOut(n, switched);
  }

  /** The dialog never shows; the fallback window does, and the icon appears
      in it at the second poll. */
  method FallbackScenario() returns (ok: bool, verdict: IconWait)
    ensures ok && verdict == IconSeen(1, true)
  {
    var polls := [IconPoll(0, 7, true, false), IconPoll(0, 7, true, true), IconPoll(0, 7, true, true)];
    assert Iterations(0, 10, 30) == 3;
    ok, verdict := WaitForIconAppear(Some("Photo AI"), 10, 30, polls);
    assert polls[0].dialogHwnd == 0;
    assert SwitchedBefore(polls, true, 1);
    assert HitAt(polls, true, 1);
    assert !HitAt(polls, true, 0);
  }
}
