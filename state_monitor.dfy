/** Watching the foreground window's title (utils/state_monitor.py). The
    window system and the clock are outside the model: each iteration's title
    is an input, and the clock is the sequence of its readings. */
module StateMonitor {
  import opened Common
  import opened Text
  import opened Clock

  /** `get_active_window_title`: the foreground window's title, where
      `foreground` is None when the query raises; "" without the window API
      or on a raise. */
  function ActiveWindowTitle(win32Available: bool, foreground: Option<string>): (r: string)
    ensures !win32Available || foreground.None? ==> r == ""
    ensures win32Available && foreground.Some? ==> r == foreground.value
  {
    if !win32Available then ""
    else match foreground
      case None => ""
      case Some(title) => title
  }

  /** The test of `wait_for_window_title_contains`: `text.lower() in title.lower()`. */
  function HasText(text: string): string -> bool {
    title => ContainsIgnoringCase(title, text)
  }

  /** The test of `wait_for_window_title_not_contains`. */
  function LacksText(text: string): string -> bool {
    title => !ContainsIgnoringCase(title, text)
  }

  /** `wait_for_window_title_contains`: true at the first polled title that
      holds the text, case-insensitively; false once the deadline passes. */
  method WaitForTitleContains(text: string, clock: seq<int>, start: int, timeout: int,
                              titles: seq<string>)
    returns (ok: bool, poll: Option<nat>)
    requires ClockReaches(clock, start, timeout)
    requires |titles| >= Polls(clock, start, timeout)
    ensures poll == FirstWhere(titles[..Polls(clock, start, timeout)], HasText(text))
    ensures ok <==> exists k :: 0 <= k < Polls(clock, start, timeout) &&
                               ContainsIgnoringCase(titles[k], text)
  {
    poll := WaitUntil(clock, start, timeout, titles, HasText(text));
    ok := poll.Some?;
    ghost var n := Polls(clock, start, timeout);
    assert forall k :: 0 <= k < n ==> titles[..n][k] == titles[k];
  }

  /** `wait_for_window_title_not_contains`: true at the first polled title
      without the text; false once the deadline passes. */
  method WaitForTitleNotContains(text: string, clock: seq<int>, start: int, timeout: int,
                                 titles: seq<string>)
    returns (ok: bool, poll: Option<nat>)
    requires ClockReaches(clock, start, timeout)
    requires |titles| >= Polls(clock, start, timeout)
    ensures poll == FirstWhere(titles[..Polls(clock, start, timeout)], LacksText(text))
    ensures ok <==> exists k :: 0 <= k < Polls(clock, start, timeout) &&
                               !ContainsIgnoringCase(titles[k], text)
  {
    poll := WaitUntil(clock, start, timeout, titles, LacksText(text));
    ok := poll.Some?;
    ghost var n := Polls(clock, start, timeout);
    assert forall k :: 0 <= k < n ==> titles[..n][k] == titles[k];
  }

  /** The two waits are complementary on the first title: whatever it is,
      exactly one of them returns at the first poll. */
  lemma FirstPollDecidesOne(text: string, titles: seq<string>)
    requires |titles| > 0
    ensures (FirstWhere(titles, HasText(text)) == Some(0)) !=
            (FirstWhere(titles, LacksText(text)) == Some(0))
  {
    if ContainsIgnoringCase(titles[0], text) {
      assert HasText(text)(titles[0]);
      assert !LacksText(text)(titles[0]);
    } else {
      assert !HasText(text)(titles[0]);
      assert LacksText(text)(titles[0]);
    }
  }

  /** The titles the waits see when every poll asks `get_active_window_title`
      afresh: one reading of the foreground window per poll. */
  function TitlesRead(win32Available: bool, foregrounds: seq<Option<string>>): (r: seq<string>)
    ensures |r| == |foregrounds|
    ensures forall k :: 0 <= k < |r| ==> r[k] == ActiveWindowTitle(win32Available, foregrounds[k])
  {
    seq(|foregrounds|, k requires 0 <= k < |foregrounds| => ActiveWindowTitle(win32Available, foregrounds[k]))
  }

  /** The empty title holds no non-empty text, whatever the case. */
  lemma EmptyTitleLacksText(text: string)
    requires text != ""
    ensures !ContainsIgnoringCase("", text)
  {
    assert |Lower(text)| > 0;
  }

  /** Without the window API every title read is "", so for a non-empty text
      the wait for the title to contain it polls until the deadline and
      fails, while the wait for the title to lose it succeeds at once. */
  lemma WithoutWin32TitleWaitsFailOpen(text: string, clock: seq<int>, start: int, timeout: int,
                                       foregrounds: seq<Option<string>>)
    requires text != ""
    requires ClockReaches(clock, start, timeout)
    requires Polls(clock, start, timeout) > 0
    requires |foregrounds| >= Polls(clock, start, timeout)
    ensures FirstWhere(TitlesRead(false, foregrounds)[..Polls(clock, start, timeout)], HasText(text)).None?
    ensures FirstWhere(TitlesRead(false, foregrounds)[..Polls(clock, start, timeout)], LacksText(text)) == Some(0)
  {
    var titles := TitlesRead(false, foregrounds)[..Polls(clock, start, timeout)];
    EmptyTitleLacksText(text);
    forall k | 0 <= k < |titles| ensures !HasText(text)(titles[k]) {
      assert titles[k] == "";
    }
    assert LacksText(text)(titles[0]);
  }

  /** `expected_filename.rsplit('.', 1)[0]`: the name before its last dot, or
      the whole name when it has none. */
  function StemOf(name: string): (r: string)
    ensures |r| <= |name| && r == name[..|r|]
    ensures (forall k :: 0 <= k < |name| ==> name[k] != '.') ==> r == name
    ensures |r| < |name| ==> name[|r|] == '.' &&
                             forall k :: |r| < k < |name| ==> name[k] != '.'
  {
    var i := LastIndexOf(name, '.');
    if i < 0 then name else name[..i]
  }

  /** The test of `verify_image_loaded`: the title holds the file name or its
      stem, case-insensitively. */
  predicate ImageShown(expected: string, title: string) {
    ContainsIgnoringCase(title, expected) || ContainsIgnoringCase(title, StemOf(expected))
  }

  /** Because the stem is a prefix of the name, the test is the same as
      looking for the stem alone. */
  lemma ImageShownIffStemShown(expected: string, title: string)
    ensures ImageShown(expected, title) <==> ContainsIgnoringCase(title, StemOf(expected))
  {
    var stem := StemOf(expected);
    if ContainsIgnoringCase(title, expected) {
      PrefixFoundWhereWholeFound(title, expected, |stem|);
    }
  }

  /** A name whose only dot is its first character has an empty stem, and an
      empty stem is in every title: such a file always counts as loaded. */
  lemma DotNameAlwaysShown(ext: string, title: string)
    requires forall k :: 0 <= k < |ext| ==> ext[k] != '.'
    ensures ImageShown("." + ext, title)
  {
    var name := "." + ext;
    assert forall k :: 1 <= k < |name| ==> name[k] == ext[k - 1];
    assert name[0] == '.';
    assert LastIndexOf(name, '.') == 0;
    assert StemOf(name) == "";
    assert OccursAt(Lower(""), Lower(title), 0);
  }

  function ShowsImage(expected: string): string -> bool {
    title => ImageShown(expected, title)
  }

  /** `verify_image_loaded`: true at the first polled title that shows the
      file, false once the deadline passes (titles are polled every half
      second; the interval lives in the clock readings). */
  method VerifyImageLoaded(expected: string, clock: seq<int>, start: int, timeout: int,
                           titles: seq<string>)
    returns (ok: bool, poll: Option<nat>)
    requires ClockReaches(clock, start, timeout)
    requires |titles| >= Polls(clock, start, timeout)
    ensures poll == FirstWhere(titles[..Polls(clock, start, timeout)], ShowsImage(expected))
    ensures ok <==> exists k :: 0 <= k < Polls(clock, start, timeout) &&
                               ContainsIgnoringCase(titles[k], StemOf(expected))
  {
    poll := WaitUntil(clock, start, timeout, titles, ShowsImage(expected));
    ok := poll.Some?;
    ghost var n := Polls(clock, start, timeout);
    assert forall k :: 0 <= k < n ==> titles[..n][k] == titles[k];
    forall k | 0 <= k < n
      ensures ShowsImage(expected)(titles[k]) <==> ContainsIgnoringCase(titles[k], StemOf(expected))
    {
      ImageShownIffStemShown(expected, titles[k]);
    }
  }

  /** The main window's title marker of `wait_for_dialog_closed`
      (case-sensitive). */
  const MainWindowMarker := "Topaz Gigapixel"

  /** The title the loop compares poll `k` with: the one read before the loop
      for the first poll, the previous poll's title after that. */
  function PrevTitle(initialTitle: string, titles: seq<string>, k: nat): string
    requires k <= |titles|
  {
    if k == 0 then initialTitle else titles[k - 1]
  }

  /** Poll `k` sees a changed title that carries the main window marker. */
  predicate ClosesAt(initialTitle: string, titles: seq<string>, k: nat)
    requires k < |titles|
  {
    titles[k] != PrevTitle(initialTitle, titles, k) && IsInfix(MainWindowMarker, titles[k])
  }

  /** `wait_for_dialog_closed`: returns at the first poll whose title changed
      and names the main window; on the deadline it returns true just the
      same. `initialTitle` is the title read before the loop. */
  method WaitForDialogClosed(initialTitle: string, clock: seq<int>, start: int, timeout: int,
                             titles: seq<string>)
    returns (ok: bool, closedAt: Option<nat>)
    requires ClockReaches(clock, start, timeout)
    requires |titles| >= Polls(clock, start, timeout)
    ensures ok
    ensures closedAt.Some? ==>
              closedAt.value < Polls(clock, start, timeout) &&
              ClosesAt(initialTitle, titles, closedAt.value) &&
              forall k :: 0 <= k < closedAt.value ==> !ClosesAt(initialTitle, titles, k)
    ensures closedAt.None? ==>
              forall k :: 0 <= k < Polls(clock, start, timeout) ==> !ClosesAt(initialTitle, titles, k)
  {
    var n := Polls(clock, start, timeout);
    var prev := initialTitle;
    var i := 0;
    while clock[i] - start < timeout
      invariant 0 <= i <= n
      invariant prev == PrevTitle(initialTitle, titles, i)
      invariant forall k :: 0 <= k < i ==> !ClosesAt(initialTitle, titles, k)
      decreases n - i
    {
      var current := titles[i];
      if current != prev && IsInfix(MainWindowMarker, current) {
        return true, Some(i);
      }
      prev := current;
      i := i + 1;
    }
    return true, None;
  }

  /** Back from a "Save As" dialog: the third poll sees the main window. */
  method DialogClosedScenario() returns (closedAt: Option<nat>)
    ensures closedAt == Some(2)
  {
    var titles := ["Save As", "Save As", "Topaz Gigapixel AI"];
    assert Polls([0, 5, 10, 60], 0, 50) == 3;
    assert OccursAt(MainWindowMarker, titles[2], 0);
    assert ClosesAt("Save As", titles, 2);
    assert !ClosesAt("Save As", titles, 0) && !ClosesAt("Save As", titles, 1);
    var ok;
    ok, closedAt := WaitForDialogClosed("Save As", [0, 5, 10, 60], 0, 50, titles);
  }

  /** A title that already names the main window and never changes is never
      taken as the dialog closing: the wait runs to its deadline. */
  method UnchangedMainTitleScenario() returns (ok: bool, closedAt: Option<nat>)
    ensures ok && closedAt == None
  {
    var t := "Topaz Gigapixel AI";
    assert Polls([0, 30, 60], 0, 50) == 2;
    ok, closedAt := WaitForDialogClosed(t, [0, 30, 60], 0, 50, [t, t]);
  }
}
