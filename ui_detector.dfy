/** Finding and clicking buttons by template image (utils/ui_detector.py).
    The template directory is given by the names of the files in it; the
    screen search is an oracle `locate(path, confidence)`; the clock is the
    sequence of readings of the wait loop. */
module UiDetector {
  import opened Common
  import opened Clock

  /** Templates with transparent or moving parts, matched more leniently. */
  const LowConfidenceTemplates: map<string, real> :=
    map["complete_check" := 0.6, "analyzing_spinner" := 0.6]

  /** The confidence `find_button` searches with: the explicit argument when
      given, else the per-template override, else the detector's default. */
  function EffectiveConfidence(name: string, explicit: Option<real>, default: real): (r: real)
    ensures explicit.Some? ==> r == explicit.value
    ensures explicit.None? && (name == "complete_check" || name == "analyzing_spinner") ==> r == 0.6
    ensures explicit.None? && name != "complete_check" && name != "analyzing_spinner" ==>
              r == default
  {
    match explicit
    case Some(c) => c
    case None => if name in LowConfidenceTemplates then LowConfidenceTemplates[name] else default
  }

  /** The extensions tried, in order. */
  const TemplateExtensions := [".png", ".jpg", ".jpeg"]

  function TemplateExists(files: set<string>, name: string): string -> bool {
    ext => name + ext in files
  }

  /** The template file used: the first of `name.png`, `name.jpg`,
      `name.jpeg` present in the template directory. */
  function TemplateFile(files: set<string>, name: string): (r: Option<string>)
    ensures r.Some? ==>
              exists i :: 0 <= i < |TemplateExtensions| &&
                r.value == name + TemplateExtensions[i] && r.value in files &&
                forall j :: 0 <= j < i ==> name + TemplateExtensions[j] !in files
    ensures r.None? ==> forall i :: 0 <= i < |TemplateExtensions| ==>
              name + TemplateExtensions[i] !in files
  {
    match FirstWhere(TemplateExtensions, TemplateExists(files, name))
    case None => None
    case Some(i) => Some(name + TemplateExtensions[i])
  }

  /** The extension loop of `find_button`, stopping at the first file that
      exists. */
  method FindTemplateFile(files: set<string>, name: string) returns (path: Option<string>)
    ensures path == TemplateFile(files, name)
  {
    path := None;
    var i := 0;
    while i < |TemplateExtensions|
      invariant 0 <= i <= |TemplateExtensions|
      invariant forall j :: 0 <= j < i ==> name + TemplateExtensions[j] !in files
    {
      var candidate := name + TemplateExtensions[i];
      if candidate in files {
        path := Some(candidate);
        break;
      }
      i := i + 1;
    }
  }

  /** The outcomes of the screen search: a box, nothing, or one of two
      raises (`ImageNotFoundException` and any other). */
  datatype Located = OnScreen(box: Region) | NotOnScreen | ImageNotFound | SearchRaised

  /** The box centre `(left + width // 2, top + height // 2)`. */
  function Centre(b: Region): (p: Point)
    ensures b.width >= 0 ==> b.x <= p.x <= b.x + b.width
    ensures b.height >= 0 ==> b.y <= p.y <= b.y + b.height
    ensures 2 * (p.x - b.x) <= b.width < 2 * (p.x - b.x) + 2
    ensures 2 * (p.y - b.y) <= b.height < 2 * (p.y - b.y) + 2
  {
    Point(b.x + b.width / 2, b.y + b.height / 2)
  }

  /** What `find_button` answers: the centre of the box found with the
      chosen template and confidence, and None when there is no template,
      the search finds nothing, or it raises. */
  function ButtonPosition(files: set<string>, name: string, explicit: Option<real>,
                          default: real, locate: (string, real) -> Located): (r: Option<Point>)
    ensures TemplateFile(files, name).None? ==> r.None?
    ensures r.Some? <==>
              (TemplateFile(files, name).Some? &&
               locate(TemplateFile(files, name).value,
                      EffectiveConfidence(name, explicit, default)).OnScreen?)
    ensures r.Some? ==>
              r.value == Centre(locate(TemplateFile(files, name).value,
                                       EffectiveConfidence(name, explicit, default)).box)
  {
    match TemplateFile(files, name)
    case None => None
    case Some(path) =>
      match locate(path, EffectiveConfidence(name, explicit, default))
      case OnScreen(box) => Some(Centre(box))
      case _ => None
  }

  /** `UIDetector.find_button`; `default` is the detector's confidence. */
  method FindButton(files: set<string>, name: string, explicit: Option<real>, default: real,
                    locate: (string, real) -> Located)
    returns (pos: Option<Point>)
    ensures pos == ButtonPosition(files, name, explicit, default, locate)
  {
    var confidence := EffectiveConfidence(name, explicit, default);
    var path := FindTemplateFile(files, name);
    if path.None? {
      return None;
    }
    var outcome := locate(path.value, confidence);
    match outcome
    case OnScreen(box) =>
      pos := Some(Centre(box));
    case NotOnScreen =>
      pos := None;
    case ImageNotFound =>
      pos := None;
    case SearchRaised =>
      pos := None;
  }

  /** `click_button`: clicks the found centre; true exactly when a position
      was found. `at` is where the click goes. */
  method ClickButton(files: set<string>, name: string, default: real,
                     locate: (string, real) -> Located)
    returns (clicked: bool, at: Option<Point>)
    ensures at == ButtonPosition(files, name, None, default, locate)
    ensures clicked <==> at.Some?
  {
    at := FindButton(files, name, None, default, locate);
    clicked := at.Some?;
  }

  function Clickable(files: set<string>, name: string, default: real):
    ((string, real) -> Located) -> bool
  {
    (locate: (string, real) -> Located) => ButtonPosition(files, name, None, default, locate).Some?
  }

  /** `wait_and_click`: one click attempt per iteration, against the screen
      of that moment (`screens[k]`); true at the first successful click,
      false once the deadline passes. */
  method WaitAndClick(files: set<string>, name: string, default: real,
                      clock: seq<int>, start: int, timeout: int,
                      screens: seq<(string, real) -> Located>)
    returns (ok: bool, poll: Option<nat>)
    requires ClockReaches(clock, start, timeout)
    requires |screens| >= Polls(clock, start, timeout)
    ensures poll == FirstWhere(screens[..Polls(clock, start, timeout)], Clickable(files, name, default))
    ensures ok <==> poll.Some?
    ensures ok ==> TemplateFile(files, name).Some?
  {
    var n := Polls(clock, start, timeout);
    var i := 0;
    while clock[i] - start < timeout
      invariant 0 <= i <= n
      invariant forall k :: 0 <= k < i ==> !Clickable(files, name, default)(screens[k])
      decreases n - i
    {
      var clicked, at := ClickButton(files, name, default, screens[i]);
      if clicked {
        assert screens[..n][i] == screens[i];
        assert forall k :: 0 <= k < i ==> screens[..n][k] == screens[k];
        return true, Some(i);
      }
      i := i + 1;
    }
    assert forall k :: 0 <= k < n ==> screens[..n][k] == screens[k];
    return false, None;
  }
}
