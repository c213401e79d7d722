/** Window lookup and window geometry (utils/window_manager.py). The window
    system is outside the model: an enumeration is the sequence of windows
    it reports, in its order, and a rectangle query is its answer (None when
    the call raises). */
module WindowManager {
  import opened Common
  import opened Text
  import opened Clock

  /** A top-level window as enumeration reports it. */
  datatype TopWindow = TopWindow(hwnd: int, visible: bool, title: string)

  /** A child window; `className` is None when asking for it raises. */
  datatype ChildWindow = ChildWindow(hwnd: int, visible: bool, className: Option<string>)

  /** The callback test of `find_window_by_title`. */
  function TitleMatches(pattern: string): TopWindow -> bool {
    (w: TopWindow) => w.visible && ContainsIgnoringCase(w.title, pattern)
  }

  function Handles(ws: seq<TopWindow>): (r: seq<int>)
    ensures |r| == |ws| && forall k :: 0 <= k < |ws| ==> r[k] == ws[k].hwnd
  {
    seq(|ws|, k requires 0 <= k < |ws| => ws[k].hwnd)
  }

  /** The handle `find_window_by_title` answers: that of the first visible
      window, in enumeration order, whose title contains the pattern
      case-insensitively; 0 when there is none or no window API. */
  function WindowByTitle(win32Available: bool, windows: seq<TopWindow>, pattern: string): (h: int)
    ensures !win32Available ==> h == 0
    ensures win32Available && FirstWhere(windows, TitleMatches(pattern)).None? ==> h == 0
    ensures win32Available && FirstWhere(windows, TitleMatches(pattern)).Some? ==>
              h == windows[FirstWhere(windows, TitleMatches(pattern)).value].hwnd
  {
    if !win32Available then 0
    else match FirstWhere(windows, TitleMatches(pattern))
      case None => 0
      case Some(i) => windows[i].hwnd
  }

  /** The handles collected from one more window. */
  lemma CollectedSnoc(windows: seq<TopWindow>, pattern: string, i: nat)
    requires i < |windows|
    ensures Handles(Filter(windows[..i + 1], TitleMatches(pattern))) ==
            Handles(Filter(windows[..i], TitleMatches(pattern))) +
              (if TitleMatches(pattern)(windows[i]) then [windows[i].hwnd] else [])
  {
    assert windows[..i + 1][..i] == windows[..i];
  }

  /** `find_window_by_title`: the callback collects every matching handle,
      and the first collected one is returned. */
  method FindWindowByTitle(win32Available: bool, windows: seq<TopWindow>, pattern: string)
    returns (hwnd: int)
    ensures hwnd == WindowByTitle(win32Available, windows, pattern)
  {
    if !win32Available {
      return 0;
    }
    var found: seq<int> := [];
    for i := 0 to |windows|
      invariant found == Handles(Filter(windows[..i], TitleMatches(pattern)))
    {
      CollectedSnoc(windows, pattern, i);
      var w := windows[i];
      if w.visible && ContainsIgnoringCase(w.title, pattern) {
        found := found + [w.hwnd];
      }
    }
    assert windows[..|windows|] == windows;
    FilterFirst(windows, TitleMatches(pattern));
    if |found| > 0 {
      return found[0];
    }
    return 0;
  }

  /** `activate_window`: false without the window API, for handle 0, or when
      bringing the window forward raises. */
  function ActivateWindow(win32Available: bool, hwnd: int, raises: bool): (ok: bool)
    ensures ok <==> win32Available && hwnd != 0 && !raises
  {
    win32Available && hwnd != 0 && !raises
  }

  /** `activate_app_window` of every controller: the first visible window
      whose title contains the application's pattern is brought forward;
      false when there is none, when its handle is 0, or when bringing it
      forward raises (`raises`). */
  function ActivateAppWindow(win32Available: bool, windows: seq<TopWindow>, pattern: string,
                             raises: bool): (ok: bool)
    ensures ok <==> win32Available && !raises &&
                    exists k :: 0 <= k < |windows| && TitleMatches(pattern)(windows[k]) &&
                                windows[k].hwnd != 0 &&
                                forall j :: 0 <= j < k ==> !TitleMatches(pattern)(windows[j])
  {
    var hwnd := WindowByTitle(win32Available, windows, pattern);
    if hwnd != 0 then ActivateWindow(win32Available, hwnd, raises) else false
  }

  function WindowFound(win32Available: bool, pattern: string): seq<TopWindow> -> bool {
    ws => WindowByTitle(win32Available, ws, pattern) != 0
  }

  /** `wait_for_window`: one lookup per iteration over that moment's
      enumeration; the first nonzero handle, or 0 once the deadline passes. */
  method WaitForWindow(win32Available: bool, pattern: string, clock: seq<int>, start: int,
                       timeout: int, enumerations: seq<seq<TopWindow>>)
    returns (hwnd: int, poll: Option<nat>)
    requires ClockReaches(clock, start, timeout)
    requires |enumerations| >= Polls(clock, start, timeout)
    ensures poll == FirstWhere(enumerations[..Polls(clock, start, timeout)],
                               WindowFound(win32Available, pattern))
    ensures poll.None? ==> hwnd == 0
    ensures poll.Some? ==>
              hwnd != 0 && hwnd == WindowByTitle(win32Available, enumerations[poll.value], pattern)
  {
    var n := Polls(clock, start, timeout);
    var i := 0;
    while clock[i] - start < timeout
      invariant 0 <= i <= n
      invariant forall k :: 0 <= k < i ==> !WindowFound(win32Available, pattern)(enumerations[k])
      decreases n - i
    {
      hwnd := FindWindowByTitle(win32Available, enumerations[i], pattern);
      if hwnd != 0 {
        assert enumerations[..n][i] == enumerations[i];
        assert forall k :: 0 <= k < i ==> enumerations[..n][k] == enumerations[k];
        return hwnd, Some(i);
      }
      i := i + 1;
    }
    assert forall k :: 0 <= k < n ==> enumerations[..n][k] == enumerations[k];
    return 0, None;
  }

  /** `get_window_rect`: the window's origin and size, from the left, top,
      right and bottom edges the query reports; None without the window API,
      for handle 0, or when the query raises (`rect` None). */
  function GetWindowRect(win32Available: bool, hwnd: int, rect: Option<Bounds>): (r: Option<Region>)
    ensures r.None? <==> !win32Available || hwnd == 0 || rect.None?
    ensures r.Some? ==> r.value.x == rect.value.left && r.value.y == rect.value.top
    ensures r.Some? ==> r.value.x + r.value.width == rect.value.right &&
                        r.value.y + r.value.height == rect.value.bottom
  {
    if !win32Available || hwnd == 0 then None
    else match rect
      case None => None
      case Some(b) => Some(Region(b.left, b.top, b.right - b.left, b.bottom - b.top))
  }

  /** `int(origin + size * ratio)`: an absolute coordinate. */
  function Scaled(origin: int, size: int, ratio: real): int {
    Trunc(origin as real + size as real * ratio)
  }

  /** `int(size * ratio)`: a length. */
  function Part(size: int, ratio: real): int {
    Trunc(size as real * ratio)
  }

  /** `get_relative_region`: a sub-rectangle given by fractions of the
      window, each coordinate truncated toward zero as Python's `int` does.
      `rect` is what `get_window_rect` answered. */
  function GetRelativeRegion(rect: Option<Region>, xRatio: real, yRatio: real,
                             widthRatio: real, heightRatio: real): (r: Option<Region>)
    ensures r.None? <==> rect.None?
  {
    match rect
    case None => None
    case Some(w) =>
      Some(Region(Scaled(w.x, w.width, xRatio), Scaled(w.y, w.height, yRatio),
                  Part(w.width, widthRatio), Part(w.height, heightRatio)))
  }

  /** One axis of the containment argument: truncating `origin + size * pos`
      and `size * extent` never leaves `[origin, origin + size]`, whatever
      the sign of the origin. */
  lemma TruncatedSpanInside(origin: int, size: int, pos: real, extent: real)
    requires size >= 0 && 0.0 <= pos && 0.0 <= extent && pos + extent <= 1.0
    ensures origin <= Scaled(origin, size, pos)
    ensures 0 <= Part(size, extent)
    ensures Scaled(origin, size, pos) + Part(size, extent) <= origin + size
  {
    var v := origin as real + size as real * pos;
    var e := size as real * extent;
    assert size as real * pos >= 0.0 && e >= 0.0;
    assert size as real * pos + e <= size as real by {
      assert size as real * (pos + extent) <= size as real * 1.0;
    }
    var a := Trunc(v);
    var b := Trunc(e);
    assert b as real <= e;
    assert a as real < v + 1.0;
    assert (a + b) as real < (origin + size) as real + 1.0;
  }

  /** The region lies inside the window. */
  predicate Within(r: Region, w: Region) {
    w.x <= r.x && r.x + r.width <= w.x + w.width && 0 <= r.width &&
    w.y <= r.y && r.y + r.height <= w.y + w.height && 0 <= r.height
  }

  /** With fractions in `[0, 1]` whose spans stay within the window, the
      region lies inside the window. */
  lemma RelativeRegionInsideWindow(w: Region, xRatio: real, yRatio: real,
                                   widthRatio: real, heightRatio: real)
    requires w.width >= 0 && w.height >= 0
    requires 0.0 <= xRatio && 0.0 <= widthRatio && xRatio + widthRatio <= 1.0
    requires 0.0 <= yRatio && 0.0 <= heightRatio && yRatio + heightRatio <= 1.0
    ensures Within(GetRelativeRegion(Some(w), xRatio, yRatio, widthRatio, heightRatio).value, w)
  {
    TruncatedSpanInside(w.x, w.width, xRatio, widthRatio);
    TruncatedSpanInside(w.y, w.height, yRatio, heightRatio);
  }

  /** On a monitor left of the primary one, truncation rounds toward zero:
      half of a 3-pixel window at x = -3 starts at -1, where flooring would
      give -2. */
  lemma NegativeOriginTruncatesTowardZero()
    ensures GetRelativeRegion(Some(Region(-3, 0, 3, 2)), 0.5, 0.0, 0.5, 1.0).value.x == -1
    ensures (-3.0 + 3.0 * 0.5).Floor == -2
  {
    assert -3.0 + 3.0 * 0.5 == -1.5;
    assert (1.5).Floor == 1;
  }

  /** The callback test of `get_all_windows_with_title`: visible, with a
      non-empty title holding the pattern. */
  function TitledMatch(pattern: string): TopWindow -> bool {
    (w: TopWindow) => w.visible && w.title != "" && ContainsIgnoringCase(w.title, pattern)
  }

  function HandlesAndTitles(ws: seq<TopWindow>): (r: seq<(int, string)>)
    ensures |r| == |ws| && forall k :: 0 <= k < |ws| ==> r[k] == (ws[k].hwnd, ws[k].title)
  {
    seq(|ws|, k requires 0 <= k < |ws| => (ws[k].hwnd, ws[k].title))
  }

  /** `get_all_windows_with_title`: every matching window as a (handle,
      title) pair, in enumeration order; [] without the window API. A raise
      during enumeration keeps what was collected, so `windows` is what was
      enumerated before it. */
  method GetAllWindowsWithTitle(win32Available: bool, windows: seq<TopWindow>, pattern: string)
    returns (found: seq<(int, string)>)
    ensures !win32Available ==> found == []
    ensures win32Available ==> found == HandlesAndTitles(Filter(windows, TitledMatch(pattern)))
  {
    found := [];
    if !win32Available {
      return;
    }
    for i := 0 to |windows|
      invariant found == HandlesAndTitles(Filter(windows[..i], TitledMatch(pattern)))
    {
      assert windows[..i + 1] == windows[..i] + [windows[i]];
      assert windows[..i + 1][..i] == windows[..i];
      var w := windows[i];
      if w.visible && w.title != "" && ContainsIgnoringCase(w.title, pattern) {
        found := found + [(w.hwnd, w.title)];
      }
    }
    assert windows[..|windows|] == windows;
  }

  /** Every listed pair is a visible window with a non-empty matching title,
      and every such window is listed. */
  lemma AllWindowsListed(windows: seq<TopWindow>, pattern: string, k: nat)
    requires k < |windows|
    ensures (windows[k].hwnd, windows[k].title) in
              HandlesAndTitles(Filter(windows, TitledMatch(pattern))) <==>
            exists j :: 0 <= j < |windows| && windows[j].hwnd == windows[k].hwnd &&
              windows[j].title == windows[k].title && TitledMatch(pattern)(windows[j])
  {
    var f := Filter(windows, TitledMatch(pattern));
    var pairs := HandlesAndTitles(f);
    var p := (windows[k].hwnd, windows[k].title);
    if p in pairs {
      var i :| 0 <= i < |pairs| && pairs[i] == p;
      assert f[i] in windows;
      var j :| 0 <= j < |windows| && windows[j] == f[i];
      assert TitledMatch(pattern)(windows[j]);
    }
    if exists j :: 0 <= j < |windows| && windows[j].hwnd == windows[k].hwnd &&
              windows[j].title == windows[k].title && TitledMatch(pattern)(windows[j]) {
      var j :| 0 <= j < |windows| && windows[j].hwnd == windows[k].hwnd &&
              windows[j].title == windows[k].title && TitledMatch(pattern)(windows[j]);
      assert windows[j] in f;
      var i :| 0 <= i < |f| && f[i] == windows[j];
      assert pairs[i] == p;
    }
  }

  /** The callback test of `find_child_windows`: visible, and when a class
      is asked for, a class name that can be read and contains it
      case-insensitively. */
  function ChildMatches(className: Option<string>): ChildWindow -> bool {
    (c: ChildWindow) => c.visible &&
         (className.None? ||
          (c.className.Some? && ContainsIgnoringCase(c.className.value, className.value)))
  }

  function ChildHandles(cs: seq<ChildWindow>): (r: seq<int>)
    ensures |r| == |cs| && forall k :: 0 <= k < |cs| ==> r[k] == cs[k].hwnd
  {
    seq(|cs|, k requires 0 <= k < |cs| => cs[k].hwnd)
  }

  /** `find_child_windows`: the handles of the matching children, in
      enumeration order; [] without the window API or for parent 0. */
  method FindChildWindows(win32Available: bool, parent: int, children: seq<ChildWindow>,
                          className: Option<string>)
    returns (found: seq<int>)
    ensures !win32Available || parent == 0 ==> found == []
    ensures win32Available && parent != 0 ==>
              found == ChildHandles(Filter(children, ChildMatches(className)))
  {
    found := [];
    if !win32Available || parent == 0 {
      return;
    }
    for i := 0 to |children|
      invariant found == ChildHandles(Filter(children[..i], ChildMatches(className)))
    {
      assert children[..i + 1] == children[..i] + [children[i]];
      assert children[..i + 1][..i] == children[..i];
      var c := children[i];
      if c.visible {
        if className.None? {
          found := found + [c.hwnd];
        } else if c.className.Some? && ContainsIgnoringCase(c.className.value, className.value) {
          found := found + [c.hwnd];
        }
      }
    }
    assert children[..|children|] == children;
  }

  /** Asking for a class only narrows the result: every child kept with a
      class name is kept without one. */
  lemma ClassFilterNarrows(children: seq<ChildWindow>, className: string, k: nat)
    requires k < |Filter(children, ChildMatches(Some(className)))|
    ensures Filter(children, ChildMatches(Some(className)))[k] in
              Filter(children, ChildMatches(None))
  {
    var c := Filter(children, ChildMatches(Some(className)))[k];
    assert c in children && ChildMatches(Some(className))(c);
    var j :| 0 <= j < |children| && children[j] == c;
    assert ChildMatches(None)(children[j]);
  }
}
