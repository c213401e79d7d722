# Topaz automation: completion detection, in Dafny

Topaz automation drives two desktop image-enhancement programs, Topaz Photo AI
and Topaz Gigapixel AI, by simulated keystrokes and clicks. The part that
decides anything is the machinery around those keystrokes, and that is what
this project models:

- the polling waits that decide when the application has finished a step:
  - OCR waits for text to disappear or for a save to complete;
  - waits for an icon to appear;
  - waits on the window title;
  - the Photo AI double-checked completion icon;
  - waits for a file;
- the detectors those waits consult:
  - the word engine with a confidence filter;
  - the line engine;
  - template matching, both multi-method and multi-scale, with a best-of
    reduction;
- the helpers for windows, files and directory listings;
- the run history;
- the two controllers' batch drivers.

What the screen, the OCR engines, the window system, the file system and the
clock answer is given to each model as an input. Each model is then proved
against a specification: the first poll that satisfies the exit condition, the
number of polls the deadline allows, the records appended to the history, and
the files listed.

Conventions used throughout:

- **Time.** Time is counted in integer ticks.
- **Fixed-interval waits.** A wait that adds a fixed interval to an `elapsed`
  counter makes exactly `Common.Iterations(start, interval, timeout)` polls.
- **Wall-clock waits.** A wait that reads `time.time()` is given the sequence
  of clock readings. Each reading is taken when the loop condition is
  checked. The wait ends at the first reading past the deadline
  (`Clock.Polls`).
- **Poll outcomes.** What each poll observes is the matching element of a
  sequence. When one iteration consults several detectors, the element is a
  record (`QueuePoll`, `IconPoll`, `ImagePoll`).
- **Objects.** The objects whose state the source updates in place are
  classes:
  - `RunHistory`;
  - the icon detector's template cache;
  - the lazily created OCR reader (`ReaderSlot`).

Modules, one per source file:

| module | source |
|---|---|
| `Common`, `Clock`, `Text` | shared: poll budgets, wall-clock waits, the Python string operations used |
| `OcrMonitor` | `utils/ocr_monitor.py` |
| `OcrMonitorV2` | `utils/ocr_monitor_v2.py` |
| `IconDetection` | `utils/icon_detector.py` |
| `UiDetector` | `utils/ui_detector.py` |
| `StateMonitor` | `utils/state_monitor.py` |
| `WindowManager` | `utils/window_manager.py` |
| `FileHandler` | `utils/file_handler.py` |
| `BaseConfig` | `config/base_config.py` |
| `History` | `utils/run_history.py` |
| `PhotoAiController` | `controllers/photoai_controller.py` |
| `GigapixelController` | `controllers/gigapixel_controller.py` |

## Model

| member | source | states |
|---|---|---|
| `Common.IterationsBound` | utils/ocr_monitor.py:207-244 | The poll count of `elapsed = start; while elapsed < timeout: ...; elapsed += interval` is the least n with start + n·interval ≥ timeout. |
| `Common.IterationsAntitone` | utils/icon_detector.py:340-415 | Starting the counter later (after an initial wait) never allows more polls. |
| `Common.Trunc` | utils/window_manager.py:190-193 | Python `int()` on a float truncates toward zero: it equals the floor for non-negative values and lies in (x-1, 0] when rounding a negative value up. |
| `Common.FilterFirst` | utils/window_manager.py:21-50 | A filtered list is non-empty exactly when a first match exists, and its head is that first match (find-first versus collect-all). |
| `Clock.PollsMonotone` | utils/state_monitor.py:36-65 | A longer timeout reads the clock at least as many times. |
| `Clock.WaitUntil` | utils/state_monitor.py:36-65 | A wall-clock wait returns the first poll, among those before the deadline, that satisfies the exit condition, or none. |
| `Clock.LongerWaitKeepsHit` | utils/ui_detector.py:129-136 | A wait that succeeds with a shorter timeout succeeds at the same poll with a longer one. |
| `Text.Lower` | utils/ocr_monitor.py:104 | `str.lower()` keeps the length and lower-cases each character. |
| `Text.Upper` | config/base_config.py:57 | `str.upper()` keeps the length and upper-cases each character. |
| `Text.PrefixFoundWhereWholeFound` | utils/window_manager.py:38 | If a title contains a pattern case-insensitively, it also contains every prefix of that pattern. |
| `Text.PartOccursInJoin` | utils/ocr_monitor_v2.py:157 | Every part of `' '.join(parts)` occurs in the joined text. |
| `Text.TrimStart` | utils/ocr_monitor_v2.py:153 | `lstrip()` returns a suffix of its input that does not start with white space. |
| `Text.TrimEnd` | utils/ocr_monitor_v2.py:153 | `rstrip()` returns a prefix of its input that does not end with white space. |
| `Text.Strip` | utils/ocr_monitor_v2.py:153 | `strip()` neither starts nor ends with white space and is no longer than its input. |
| `Text.StripKeeps` | utils/ocr_monitor_v2.py:153 | `strip()` is the identity on text already trimmed, so it is idempotent. |
| `Text.StripEmptyOnlyForWhiteSpace` | utils/ocr_monitor_v2.py:153-155 | `strip()` is empty exactly when every character is white space, which is the word filter's emptiness test. |
| `Text.LastIndexOf` | utils/state_monitor.py:114 | `rfind` returns the last occurrence of the character, or -1 when there is none. |
| `Text.NatToString` | utils/file_handler.py:83 | The decimal form of the counter is non-empty and made of digits. |
| `Text.NatToStringRoundTrip` | utils/file_handler.py:83 | Parsing the decimal form of a counter gives the counter back. |
| `Text.NatToStringInjective` | utils/file_handler.py:83 | Different counters print differently. |
| `Text.BelowIrreflexive` | config/base_config.py:73-75 | Code-point string order is irreflexive. |
| `Text.BelowTransitive` | config/base_config.py:73-75 | Code-point string order is transitive. |
| `Text.BelowTotal` | config/base_config.py:73-75 | Code-point string order is total on distinct strings. |
| `Text.InsertSortedCorrect` | config/base_config.py:73-75 | Inserting a new name into a strictly sorted list keeps it strictly sorted and adds exactly that name. |
| `Text.SortDistinctCorrect` | config/base_config.py:73-75 | `sorted()` of distinct names is strictly increasing and a permutation of its input. |
| `OcrMonitor.ReaderSlot.constructor` | utils/ocr_monitor.py:13-30 | The module-level reader starts out unset. |
| `OcrMonitor.ReaderSlot.Get` | utils/ocr_monitor.py:13-30 | `get_ocr_reader` returns the cached reader when one exists. Otherwise it stores and returns the result of initialisation, which is None on failure. |
| `OcrMonitor.GetTwice` | utils/ocr_monitor.py:13-30 | Once a reader is made, later calls return that same reader. A failed initialisation is retried on the next call. |
| `OcrMonitor.FindTarget` | utils/ocr_monitor.py:103-108 | The target is found exactly when some recognised line contains it case-insensitively. |
| `OcrMonitor.DetectTextInRegion` | utils/ocr_monitor.py:52-112 | Found exactly when a reader exists, the capture succeeded, recognition did not raise and some line contains the target. The reader is created on first use. |
| `OcrMonitor.PreviewRegion` | utils/ocr_monitor.py:115-147 | The preview region has positive size and ends 10 px (expanded) or 20 px from the screen's right edge. |
| `OcrMonitor.WaitForTextDisappear` | utils/ocr_monitor.py:171-251 | Returns false exactly when no reader is available. Otherwise it confirms at the first poll that is the second consecutive miss. A timeout is reported only after all polls the budget allows, with no such pair. |
| `OcrMonitor.DisappearanceScenario` | utils/ocr_monitor.py:212-244 | Seen, seen, missed, missed confirms on the fourth poll: one miss alone does not end the wait. |
| `OcrMonitor.WaitForSaveProcessingComplete` | utils/ocr_monitor.py:254-361 | Always returns true. The verdict is one of: reader missing; Done seen at the first ending poll; implicit completion once Processing was seen and then vanished, confirmed by the re-check; or a timeout that records whether Processing or Done was ever seen. |
| `OcrMonitor.DoneScenario` | utils/ocr_monitor.py:298-353 | A Done indicator on the fourth poll ends the wait there. |
| `OcrMonitor.ImplicitScenario` | utils/ocr_monitor.py:298-353 | Processing followed by silence with a clean re-check ends the wait as implicit completion. |
| `OcrMonitorV2.KeptWords` | utils/ocr_monitor_v2.py:150-156 | At most one kept word per token. |
| `OcrMonitorV2.KeptWordsSound` | utils/ocr_monitor_v2.py:150-156 | Every kept word is the non-empty stripped text of a token whose confidence exceeds the threshold. |
| `OcrMonitorV2.KeptWordsComplete` | utils/ocr_monitor_v2.py:150-156 | Every token above the threshold with non-blank text contributes its stripped text. |
| `OcrMonitorV2.DetectTextTesseract` | utils/ocr_monitor_v2.py:119-172 | Without the engine, or when it raises, the result is not found with empty text. Otherwise the text is the kept words joined by spaces, and found means the target occurs in it case-insensitively. |
| `OcrMonitorV2.EasyOcrVerdict` | utils/ocr_monitor_v2.py:175-210 | Without a reader, or when recognition raises, the result is (false, ""). The text is the lines joined by spaces. Found exactly when a reader exists, recognition succeeded and one of the lines contains the target case-insensitively. |
| `OcrMonitorV2.LowerKeepsInfix` | utils/ocr_monitor_v2.py:198 | Lower-casing preserves substring occurrence. |
| `OcrMonitorV2.EasyOcrFoundInReportedText` | utils/ocr_monitor_v2.py:175-210 | Whenever the line engine reports found, the text it reports also contains the target. |
| `OcrMonitorV2.SplitTargetMissedByLineEngine` | utils/ocr_monitor_v2.py:197-198 | A target split over two lines is not found by the line engine, although its reported joined text contains it. |
| `OcrMonitorV2.SplitTargetFoundByWordEngine` | utils/ocr_monitor_v2.py:157-160 | The word engine, which searches the joined text, finds the same split target. |
| `OcrMonitorV2.TemplateFound` | utils/ocr_monitor_v2.py:213-261 | Found only when the template file exists and matching gives a score. It is then found exactly when the score reaches the threshold of 0.7. |
| `OcrMonitorV2.TemplateThresholdMonotone` | utils/ocr_monitor_v2.py:213-261 | A template found at a threshold is found at every lower threshold. |
| `OcrMonitorV2.DetectTextInRegion` | utils/ocr_monitor_v2.py:264-314 | A failed capture gives nothing. Otherwise the word engine, then the line engine, then template matching are tried, and the first hit wins with its text (the target itself for a template hit). When all miss, the line engine's text is returned, and found holds exactly when some source hit. A word-engine hit leaves the line-engine reader untouched. |
| `OcrMonitorV2.WaitForSaveProcessingComplete` | utils/ocr_monitor_v2.py:330-429 | Always returns true and never reports a missing reader. Its verdict fits the polls as in the first version, except that the Done flag on timeout is never set. |
| `OcrMonitorV2.SilentQueueScenario` | utils/ocr_monitor_v2.py:365-425 | A queue that never shows either indicator times out after all polls with nothing seen. |
| `IconDetection.BestOfIsMaximum` | utils/icon_detector.py:159-174 | The best-of reduction's confidence is at least every attempt's. When it moved off the initial value, it carries the tag of the first attempt with that confidence, which is a strict improvement. |
| `IconDetection.BestOfConsistent` | utils/icon_detector.py:159-174 | If every attempt's found flag agrees with its confidence against the threshold, so does the best. |
| `IconDetection.BestOfFoundIffAny` | utils/icon_detector.py:159-174 | Starting from not-found below the threshold, the best is found exactly when some attempt is found. |
| `IconDetection.MatchTemplate` | utils/icon_detector.py:87-134 | For square-difference methods the confidence is 1 - min at the minimum's location, and for the others the maximum at its location. A pass that raises gives no match with confidence 0. Found agrees with the threshold. |
| `IconDetection.MatchTemplateConsistent` | utils/icon_detector.py:87-134 | With a positive threshold even the error result agrees with the threshold. |
| `IconDetection.MethodAttempts` | utils/icon_detector.py:153-166 | One attempt for each of the three methods, in the order CCOEFF_NORMED, CCORR_NORMED, SQDIFF_NORMED. |
| `IconDetection.MatchTemplateMultiMethod` | utils/icon_detector.py:136-174 | The loop computes the best-of reduction over the three method attempts. |
| `IconDetection.MultiMethodFound` | utils/icon_detector.py:136-174 | With a positive threshold the multi-method result is found exactly when some single method finds the template. |
| `IconDetection.ZeroThresholdLosesMatch` | utils/icon_detector.py:159-174 | At threshold 0 a match with confidence 0 is found by a single method, but the multi-method loop reports not found because its update requires a strictly better confidence. |
| `IconDetection.ScaleAttemptsMembers` | utils/icon_detector.py:202-226 | A scale is tried exactly when the truncated scaled template is at least 5 px each way and fits inside the image. |
| `IconDetection.MatchTemplateMultiscale` | utils/icon_detector.py:176-233 | The loop computes the best-of reduction over the attempts at the scales that fit, each attempt being that scale's multi-method result. |
| `IconDetection.MultiscaleFound` | utils/icon_detector.py:176-233 | Found exactly when some fitting scale and some method find the template. |
| `IconDetection.TinyTemplateNeverTried` | utils/icon_detector.py:202-209 | A template 1 px wide is never tried at any of the nine scales, so detection reports not found with confidence 0. |
| `IconDetection.NoFitNoAttempts` | utils/icon_detector.py:202-209 | When no scale fits, nothing is tried. |
| `IconDetection.IconDetector.constructor` | utils/icon_detector.py:20-29 | The template cache starts empty. |
| `IconDetection.IconDetector.LoadTemplate` | utils/icon_detector.py:31-64 | A cached template is returned unchanged. A readable file is loaded and cached. A missing or unreadable file gives None and leaves the cache as it was. |
| `IconDetection.IconDetector.DetectIconInRegion` | utils/icon_detector.py:235-276 | A missing template or a failed capture gives (false, 0). Otherwise the result is the multiscale best or the single CCOEFF_NORMED match, found and confidence alike. The template cache gains the template just read, and only when it was not cached, the file exists and it reads. |
| `IconDetection.LoadTwice` | utils/icon_detector.py:31-64 | Once a template is loaded, a second load returns it even if the file has since gone. |
| `IconDetection.WaitForIconAppear` | utils/icon_detector.py:309-418 | True exactly at the first poll whose watched window shows the icon within the budget. The wait switches to the fallback window, for good, at the first poll that misses the dialog, and the verdict records whether that happened. |
| `IconDetection.FallbackScenario` | utils/icon_detector.py:345-415 | A dialog missing on the first poll switches to the fallback window, where the icon is then seen. |
| `UiDetector.EffectiveConfidence` | utils/ui_detector.py:39-47 | An explicit confidence wins. Otherwise it is 0.6 for `complete_check` and `analyzing_spinner`, and the detector's default for every other template. |
| `UiDetector.TemplateFile` | utils/ui_detector.py:49-60 | The template file is the first existing name among `.png`, `.jpg`, `.jpeg`, or None when there is none. |
| `UiDetector.FindTemplateFile` | utils/ui_detector.py:49-60 | The loop picks that first existing file. |
| `UiDetector.Centre` | utils/ui_detector.py:72-74 | The centre uses floor division and lies inside the box. |
| `UiDetector.ButtonPosition` | utils/ui_detector.py:28-86 | A position is returned exactly when a template file exists and the screen search at the effective confidence finds it, and it is the centre of the box found. A missing image or an error gives None. |
| `UiDetector.FindButton` | utils/ui_detector.py:28-86 | `find_button` answers that position. |
| `UiDetector.ClickButton` | utils/ui_detector.py:88-109 | Clicks exactly when the button is found, at its centre. |
| `UiDetector.WaitAndClick` | utils/ui_detector.py:111-136 | Clicks at the first poll before the deadline where the button is found. It is true only when it clicked, which needs a template file. |
| `StateMonitor.WaitForTitleContains` | utils/state_monitor.py:36-65 | True exactly when some title read before the deadline contains the text case-insensitively, and then it is the first such poll. |
| `StateMonitor.WaitForTitleNotContains` | utils/state_monitor.py:68-97 | True exactly when some title read before the deadline lacks the text, at the first such poll. |
| `StateMonitor.FirstPollDecidesOne` | utils/state_monitor.py:36-97 | On any first title exactly one of the two waits ends at once. |
| `StateMonitor.WithoutWin32TitleWaitsFailOpen` | utils/state_monitor.py:17-97 | Without win32 every title read is "", so for a non-empty text the contains-wait runs to the deadline and fails, while the not-contains wait succeeds at its first poll. |
| `StateMonitor.StemOf` | utils/state_monitor.py:114 | `rsplit('.', 1)[0]` is the prefix before the last dot, or the whole name when there is no dot. |
| `StateMonitor.ImageShownIffStemShown` | utils/state_monitor.py:114-122 | The image counts as loaded exactly when the title contains its stem, because the full name contains the stem. |
| `StateMonitor.DotNameAlwaysShown` | utils/state_monitor.py:114-122 | A name like ".png" has an empty stem, so every title counts as showing it. |
| `StateMonitor.VerifyImageLoaded` | utils/state_monitor.py:100-131 | True exactly when some title before the deadline contains the stem, at the first such poll. |
| `StateMonitor.WaitForDialogClosed` | utils/state_monitor.py:134-162 | Always returns true. It reports the first poll whose title differs from the previous one and contains "Topaz Gigapixel", or none when the timeout comes first. |
| `StateMonitor.DialogClosedScenario` | utils/state_monitor.py:147-159 | A dialog title followed by the main window's title closes at that poll. |
| `StateMonitor.UnchangedMainTitleScenario` | utils/state_monitor.py:147-162 | If the main title never changes, nothing closes and the answer is still true. |
| `WindowManager.WindowByTitle` | utils/window_manager.py:21-50 | 0 without win32. Otherwise the handle of the first visible window whose title contains the pattern case-insensitively, or 0 when there is none. |
| `WindowManager.FindWindowByTitle` | utils/window_manager.py:21-50 | The enumeration loop collects the matches, and the answer is the first one's handle, or 0. |
| `WindowManager.ActivateAppWindow` | controllers/base_controller.py:95-107 | True exactly with win32 and no exception when bringing it forward, when the first visible window whose title contains the pattern has a nonzero handle. False when no window matches. |
| `WindowManager.WaitForWindow` | utils/window_manager.py:103-125 | Returns the first nonzero handle found before the deadline, from that poll's enumeration, or 0 after the deadline. |
| `WindowManager.GetWindowRect` | utils/window_manager.py:142-165 | (x, y, width, height) with x + width = right and y + height = bottom. None without win32, for handle 0, or on error. |
| `WindowManager.GetRelativeRegion` | utils/window_manager.py:168-196 | A region exactly when the window rectangle is known. |
| `WindowManager.TruncatedSpanInside` | utils/window_manager.py:190-193 | A truncated origin plus a truncated extent stays within the span when the ratios do. |
| `WindowManager.RelativeRegionInsideWindow` | utils/window_manager.py:168-196 | Ratios in [0, 1] whose sums stay at most 1 give a region inside the window. |
| `WindowManager.NegativeOriginTruncatesTowardZero` | utils/window_manager.py:190 | On a window at negative x, `int()` rounds toward zero (-1.5 to -1), not down (to -2). |
| `WindowManager.GetAllWindowsWithTitle` | utils/window_manager.py:237-265 | [] without win32. Otherwise (handle, title) for every visible window with a non-empty title that contains the pattern, in enumeration order. |
| `WindowManager.AllWindowsListed` | utils/window_manager.py:237-265 | A window is listed exactly when a matching window with that handle and title exists. |
| `WindowManager.FindChildWindows` | utils/window_manager.py:199-234 | [] without win32 or for parent 0. Otherwise the visible children whose class contains the given name, or every visible child when no class is given. |
| `WindowManager.ClassFilterNarrows` | utils/window_manager.py:199-234 | Giving a class name only removes children. |
| `FileHandler.CandidateInjective` | utils/file_handler.py:83 | Different counters give different names `base_n.ext`. |
| `FileHandler.FirstFreeUnique` | utils/file_handler.py:63-86 | At most one name is the first free candidate. |
| `FileHandler.GetUniqueFilename` | utils/file_handler.py:63-86 | The name returned does not exist. It is `base.ext` when that is free, and otherwise `base_n.ext` for the least n ≥ 1 whose name is free, with every earlier candidate taken. The loop ends because the directory is finite. |
| `FileHandler.IsFileReady` | utils/file_handler.py:35-60 | Ready exactly when the file exists and two size readings agree and are positive. |
| `FileHandler.WaitForFile` | utils/file_handler.py:11-32 | True exactly when the file appears at some poll before the deadline, at the first such poll. |
| `BaseConfig.Glob` | config/base_config.py:56-57 | `glob('*ext')` lists the directory's names that end with the extension. |
| `BaseConfig.PathStem` | config/base_config.py:67 | `Path.stem` cuts at the last dot, unless that dot is the first or the last character. |
| `BaseConfig.PathSuffix` | config/base_config.py:67 | `Path.suffix` is what the stem leaves: empty, or a dot followed by at least one character and no further dot. |
| `BaseConfig.StemOfSuffixed` | config/base_config.py:67 | Stem and suffix of `base + ext` are `base` and `ext`. |
| `BaseConfig.ListOf` | config/base_config.py:60 | `list(set)` holds each element once. |
| `BaseConfig.GlobSupported` | config/base_config.py:52-57 | The union of the per-extension globs is exactly the supported names. |
| `BaseConfig.DropProcessed` | config/base_config.py:63-71 | Keeps exactly the names whose lower-cased stem contains no excluded suffix, without duplicates. |
| `BaseConfig.GetImageFiles` | config/base_config.py:37-75 | [] for a missing directory. Otherwise the strictly sorted, duplicate-free list of exactly the supported, unprocessed names. |
| `BaseConfig.StrictlySortedDistinct` | config/base_config.py:73-75 | A strictly sorted listing has no duplicates. |
| `BaseConfig.EmptySuffixExcludesEverything` | config/base_config.py:63-68 | An empty exclusion suffix marks every file as processed. |
| `History.BaseNameShape` | utils/run_history.py:72 | The record's name is the text after the last `\` or `/`: a suffix of the path with no separator, preceded by a separator unless it is the whole path ("" for a path that ends in a separator). |
| `History.BaseNameOfImagePath` | utils/run_history.py:72 | The record for `dir\name` is named `name`. |
| `History.ImagePaths` | controllers/photoai_controller.py:560-562 | One path `dir\name` per listed name, in order, joined as text. |
| `History.CountSuccess` | utils/run_history.py:82-85 | The successful records are at most all records. |
| `History.RunHistory.constructor` | utils/run_history.py:24-38 | Empty config, no input directory, 0 images, no records, and all summary counts 0. |
| `History.RunHistory.SetConfig` | utils/run_history.py:42-44 | Replaces the config and nothing else. |
| `History.RunHistory.SetInputDirectory` | utils/run_history.py:46-48 | Sets the input directory and nothing else. |
| `History.RunHistory.SetTotalImages` | utils/run_history.py:50-52 | Sets the total and nothing else. |
| `History.RunHistory.AddImageResult` | utils/run_history.py:54-85 | Appends one record with the path, its base name, the flag, the duration and the error. It adds one to success or to failed, keeping success + failed = number of records with skipped 0. |
| `History.RunHistory.GetSummary` | utils/run_history.py:104-106 | Returns the summary, whose counts add up to the records. |
| `History.SummaryIsACopy` | utils/run_history.py:104-106 | A summary taken earlier is not changed by a later record. |
| `History.Uniform` | controllers/photoai_controller.py:559-578 | One record per path, all with the same flag, duration and error. |
| `History.Bumped` | utils/run_history.py:82-85 | n records add n to success + failed and leave skipped alone. |
| `History.RecordAll` | controllers/photoai_controller.py:559-578 | Appending the same result for each path adds exactly those records in order and keeps the summary consistent. |
| `History.RunFiles` | utils/run_history.py:151-152 | `glob("run_*.json")` keeps exactly the directory entries whose name matches the pattern. |
| `History.InsertByAgeCorrect` | utils/run_history.py:151-155 | Inserting a file into a newest-first list keeps it newest first and adds exactly that file. |
| `History.SortNewestFirstCorrect` | utils/run_history.py:151-155 | Sorting by modification time in reverse is newest first and a permutation. |
| `History.SliceEnd` | utils/run_history.py:158 | `xs[:limit]` keeps min(limit, n) items. A negative limit drops that many from the end. |
| `History.Loadable` | utils/run_history.py:159-174 | Exactly the files that load are listed, in order. A file whose `summary` is not an object fails like one that does not parse. |
| `History.EntryOf` | utils/run_history.py:162-171 | The row copies the file's fields and path. A missing summary or counter reads as 0, a stored null as None, a number as itself. |
| `History.Entries` | utils/run_history.py:159-174 | One entry per file that loads. |
| `History.ListRunHistories` | utils/run_history.py:133-176 | [] for a missing directory. Otherwise one entry for each run file that loads among the newest `limit`, newest first. |
| `History.LoadEach` | utils/run_history.py:157-174 | The loop skips files that fail to load and keeps the rest in order. |
| `History.LoadableNewestFirst` | utils/run_history.py:157-174 | Skipping failures keeps the newest-first order. |
| `History.ListingShape` | utils/run_history.py:133-176 | The listing has at most `limit` runs for a non-negative limit, all run files of the directory, newest first. When the limit is at least the number of run files, every run file that loads is listed. |
| `PhotoAiController.FromEdge` | controllers/photoai_controller.py:98-106 | A non-negative offset counts from the near edge, a negative one from the far edge. |
| `PhotoAiController.ClickRelativeToWindow` | controllers/photoai_controller.py:74-114 | No click without a window or its rectangle. Otherwise the click is at the offsets from the proper edges. |
| `PhotoAiController.ClickInsideWindow` | controllers/photoai_controller.py:74-114 | Offsets no larger than the window's size click inside it. |
| `PhotoAiController.ActivationClick` | controllers/photoai_controller.py:57-59 | The activation click is at the floor-centre of the window horizontally, 100 px below the top. |
| `PhotoAiController.ForceActivateApp` | controllers/photoai_controller.py:22-72 | Always returns true. It makes at most three activation attempts and stops at the first success. It clicks exactly when the window and its rectangle are found. |
| `PhotoAiController.OpeningDecides` | controllers/photoai_controller.py:142-161 | For a non-empty listing, a failed activation makes opening fail, so the batch stops at its first step with no records. After a successful activation the later steps alone decide. |
| `PhotoAiController.IsProcessingComplete` | controllers/photoai_controller.py:289-301 | Complete exactly when the `complete_check` template exists and is on screen at confidence 0.6. |
| `PhotoAiController.IsStillProcessing` | controllers/photoai_controller.py:303-321 | Busy exactly when the spinner or the "analyzing" text is found. |
| `PhotoAiController.ElapsedGrows` | controllers/photoai_controller.py:364-398 | Before pass k at least 3 + 2k seconds have elapsed. |
| `PhotoAiController.ElapsedMonotone` | controllers/photoai_controller.py:364-398 | Elapsed time never decreases from pass to pass. |
| `PhotoAiController.WaitForImage` | controllers/photoai_controller.py:364-401 | Completed exactly when a pass that starts before 30 s sees the icon and the re-check 3 s later sees it again, at the first such pass. It makes at most 14 passes. |
| `PhotoAiController.ProcessEachImageSequentially` | controllers/photoai_controller.py:323-410 | Always returns true. It moves right between consecutive images only, and each image's wait completes exactly as its polls confirm. |
| `PhotoAiController.SteadyIconScenario` | controllers/photoai_controller.py:372-386 | An icon seen on both checks completes in the first pass. |
| `PhotoAiController.FlickerNeverConfirms` | controllers/photoai_controller.py:372-386 | An icon that is never there on the re-check never completes the wait. |
| `PhotoAiController.BatchRecords` | controllers/photoai_controller.py:549-578 | When all steps succeed, one success per image with an even share of the duration. When a step raises, one failure per image with its message. When a step answers false, no records. |
| `PhotoAiController.ProcessBatch` | controllers/photoai_controller.py:474-580 | The images are the unprocessed listing, and opening them is the first step. The result is all successes, or all failures from the first failing step (all failures when activation fails). The history receives exactly those records, none when nothing is listed or activation fails, and keeps its config, directory and total. |
| `GigapixelController.OpenImage` | controllers/gigapixel_controller.py:19-69 | True exactly when the file exists and the window activates. Whether the title shows the file does not change the answer. |
| `GigapixelController.SaveImage` | controllers/gigapixel_controller.py:71-115 | True exactly when the window activates, the file appears before 30 s, and it is then ready. |
| `GigapixelController.SaveImageAuto` | controllers/gigapixel_controller.py:117-189 | True exactly when the window activates. |
| `GigapixelController.WaitForProcessing` | controllers/gigapixel_controller.py:191-202 | Always true. |
| `GigapixelController.RunSteps` | controllers/gigapixel_controller.py:204-221 | Steps run in order and stop at the first false. Success means every step succeeded. |
| `GigapixelController.ProcessSingleImage` | controllers/gigapixel_controller.py:204-221 | Succeeds exactly when open and save succeed. A failed open stops after one step. |
| `GigapixelController.ProcessSingleImageAutoSave` | controllers/gigapixel_controller.py:297-344 | Succeeds exactly when open and the save activation succeed. |
| `GigapixelController.ProcessBatch` | controllers/gigapixel_controller.py:223-276 | Every supported image is listed, with no exclusion. success + failed = total, and success counts the images whose processing returned true. Each output is the first free `stem_upscaled[_n].suffix`. |
| `GigapixelController.AutoSaveRecord` | controllers/gigapixel_controller.py:397-439 | A success carries the duration. A false answer carries the duration and "Processing failed". An exception carries only its message. |
| `GigapixelController.AutoSaveRecords` | controllers/gigapixel_controller.py:379-439 | One record per image. |
| `GigapixelController.RecordAttempt` | controllers/gigapixel_controller.py:397-439 | Appends exactly that image's record. The history keeps its config, directory and total. |
| `GigapixelController.AutoSaveEach` | controllers/gigapixel_controller.py:379-439 | success + failed = the number of images, and success counts those returning true. The history receives one record per image, in order. The history keeps its config, directory and total. |
| `GigapixelController.ProcessBatchAutoSave` | controllers/gigapixel_controller.py:346-441 | Lists the unprocessed images. Skipped is 0, success + failed = total, success counts the images returning true, and the history receives their records. The history keeps its config, directory and total. |
| `GigapixelController.TaggedNameProcessed` | controllers/gigapixel_controller.py:255 | Any name carrying `_upscaled` in its stem counts as processed. |
| `GigapixelController.OutputsExcludedOnRescan` | controllers/gigapixel_controller.py:255-263 | Every output name chosen by `process_batch` is excluded by the auto-save scan, so a rerun does not upscale its own outputs. |

## Left out

- **OCR and vision internals are not modelled.** What EasyOCR, Tesseract,
  OpenCV (`matchTemplate`, `minMaxLoc`, resizing, colour conversion) and
  `pyautogui.locateOnScreen` compute is an input to each model. So are
  preprocessing (`preprocess_for_ocr`), screen capture (`capture_screen_region`,
  `capture_region`) and the debug image dumps.
- **Tesseract set-up is left out.** `init_tesseract` (`utils/ocr_monitor_v2.py`)
  only probes install paths. The model takes "engine available" as an input.
- **Reader creation is left out.** The EasyOCR and Tesseract reader objects
  and their creation are reduced to "a reader exists or not". A failed creation
  is retried on the next call.
- **Keystrokes, clicks and fixed sleeps are not modelled.** This covers the
  keystroke and click sequences:
  - in `open_image`, `save_image` and `save_image_auto`;
  - in `zoom_to_fit`;
  - in `apply_autopilot` and `export_images`;
  - in the Photo AI `open_image`/`save_image`, apart from their return
    values;

  and also `click_at_position`, `is_process_running`,
  `save_template_from_region` and `capture_button_template`.

  `apply_autopilot` and `export_images` appear only as the step results
  `ProcessBatch` is given.
- History.ImagePaths: joins directory and name as text with `\`. `pathlib` normalisation is not modelled: a `.` directory, a drive root, trailing separators and drive-relative names such as `C:a.png` are joined unchanged.
- History.BaseName: the text after the last `\` or `/`. `Path.name` also ignores trailing separators and drive prefixes, so `out\` names `out` there but "" here, and `C:a.png` names `a.png` there but `C:a.png` here.
- History.Loadable: a stored summary that is not an object is modelled as one case, whatever its JSON type. A counter of another JSON type than a number or null is not modelled.
- PhotoAiController.OpeningDecides: exceptions raised by the keystrokes inside `open_images` are not modelled; only its answer from activation and the listing is.
- **JSON persistence is left out.** `RunHistory.finalize` and
  `load_run_history` write and read JSON files. A listed file is given with its
  modification time and what loading it yields. The run id and the timestamps
  come from the clock and are left out of the record.
- **Time is in ticks.** Floating-point seconds are integer ticks. Wall-clock
  waits read a given sequence of clock readings. Confidence scores and
  durations are reals, and no rounding is modelled.
- **Case folding is ASCII only.** Python's `lower()`/`upper()` also fold
  non-ASCII letters.
- **Name order is code-point order.** `sorted()` on paths is modelled as
  code-point order of file names (POSIX paths). `WindowsPath` compares
  case-insensitively.
- **Globbing is case-sensitive.** The upper-case glob only adds names with
  upper-case extensions. On Windows both globs match the same files.
- **`list(set)` order is left open.** Only the sorted result is specified.
- **Logging is not modelled.** Logging, the periodic status messages
  (`elapsed % 10 == 0`) and their `_is_still_processing` calls have no effect
  on the results. `main.py`, `utils/logger.py` and `tools/` are not part of
  this model.
- **Some loops need requirements the source does not have.**
  - The fixed-interval waits require a positive interval; with interval 0
    the source loops forever.
  - The wall-clock waits require the clock to pass the deadline.
- **`FileHandler.GetUniqueFilename` assumes a fixed directory.** The existing
  names are a finite set read once. A file created between checks is not
  modelled.
- **`GigapixelController.ProcessBatch` leaves `output_dir` abstract.**
  `output_dir` and `ensure_directories` are out of the model. The listing of
  the output directory that is used for each image is an input.
