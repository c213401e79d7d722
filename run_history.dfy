/** The record of one automation run and the listing of earlier runs
    (utils/run_history.py). Writing and reading the JSON files is outside the
    model; a listed file is given with its modification time and what loading
    it yields. */
module History {
  import opened Common
  import opened Text

  /** Both separators a Windows path may use. */
  predicate IsSeparator(c: char) {
    c == '/' || c == '\\'
  }

  /** Where the last path component starts: just past the last separator,
      or 0 when there is none. */
  function NameStart(p: string): (k: nat)
    ensures k <= |p|
    ensures forall i :: k <= i < |p| ==> !IsSeparator(p[i])
    ensures k > 0 ==> IsSeparator(p[k - 1])
    decreases |p|
  {
    if |p| == 0 || IsSeparator(p[|p| - 1]) then |p| else NameStart(p[..|p| - 1])
  }

  /** `Path(p).name`: the part after the last separator. */
  function BaseName(p: string): string {
    p[NameStart(p)..]
  }

  /** The name is a suffix of the path free of separators, and a separator
      precedes it unless it is the whole path. */
  lemma BaseNameShape(p: string)
    ensures EndsWith(p, BaseName(p))
    ensures forall i :: 0 <= i < |BaseName(p)| ==> !IsSeparator(BaseName(p)[i])
    ensures |BaseName(p)| < |p| ==> IsSeparator(p[|p| - |BaseName(p)| - 1])
  {
    var k := NameStart(p);
    assert forall i :: 0 <= i < |p| - k ==> BaseName(p)[i] == p[k + i];
  }

  /** `str(directory / name)` on Windows, the path a record is made for. */
  function ImagePath(dir: string, name: string): string {
    dir + "\\" + name
  }

  function ImagePaths(dir: string, names: seq<string>): (r: seq<string>)
    ensures |r| == |names| && forall k :: 0 <= k < |names| ==> r[k] == ImagePath(dir, names[k])
  {
    seq(|names|, k requires 0 <= k < |names| => ImagePath(dir, names[k]))
  }

  /** A record made for a file of a directory is named after the file. */
  lemma BaseNameOfImagePath(dir: string, name: string)
    requires forall i :: 0 <= i < |name| ==> !IsSeparator(name[i])
    ensures BaseName(ImagePath(dir, name)) == name
  {
    var p := ImagePath(dir, name);
    var k := NameStart(p);
    assert p[|dir|] == '\\';
    assert p[|dir| + 1..] == name;
  }

  /** One entry of `processed_images`. */
  datatype ImageRecord = ImageRecord(imagePath: string, imageName: string, success: bool,
                                     duration: Option<real>, error: Option<string>)

  /** The `summary` counters. */
  datatype Summary = Summary(success: nat, failed: nat, skipped: nat)

  /** Number of successful records. */
  function CountSuccess(records: seq<ImageRecord>): (n: nat)
    ensures n <= |records|
    decreases |records|
  {
    if |records| == 0 then 0
    else CountSuccess(records[..|records| - 1]) + (if records[|records| - 1].success then 1 else 0)
  }

  /** `RunHistory`: the run's settings, its per-image records and their
      running totals. The run id and the time stamps come from the clock and
      are not part of the model. */
  class RunHistory {
    var config: map<string, string>
    var inputDirectory: Option<string>
    var totalImages: int
    var processed: seq<ImageRecord>
    var summary: Summary

    /** The totals always agree with the records, and nothing is ever
        counted as skipped. */
    ghost predicate Valid()
      reads this
    {
      summary.success == CountSuccess(processed) &&
      summary.failed == |processed| - CountSuccess(processed) &&
      summary.skipped == 0
    }

    constructor ()
      ensures Valid()
      ensures config == map[] && inputDirectory == None && totalImages == 0
      ensures processed == [] && summary == Summary(0, 0, 0)
    {
      config := map[];
      inputDirectory := None;
      totalImages := 0;
      processed := [];
      summary := Summary(0, 0, 0);
    }

    /** `set_config`: replaces the settings and nothing else. */
    method SetConfig(c: map<string, string>)
      modifies this
      ensures config == c
      ensures inputDirectory == old(inputDirectory) && totalImages == old(totalImages)
      ensures processed == old(processed) && summary == old(summary)
    {
      config := c;
    }

    /** `set_input_directory`: replaces the input directory and nothing else. */
    method SetInputDirectory(dir: string)
      modifies this
      ensures inputDirectory == Some(dir)
      ensures config == old(config) && totalImages == old(totalImages)
      ensures processed == old(processed) && summary == old(summary)
    {
      inputDirectory := Some(dir);
    }

    /** `set_total_images`: replaces the announced total and nothing else. */
    method SetTotalImages(total: int)
      modifies this
      ensures totalImages == total
      ensures config == old(config) && inputDirectory == old(inputDirectory)
      ensures processed == old(processed) && summary == old(summary)
    {
      totalImages := total;
    }

    /** `add_image_result`: appends one record named after the last path
        component and counts it as a success or a failure. */
    method AddImageResult(imagePath: string, success: bool, duration: Option<real>,
                          error: Option<string>)
      requires Valid()
      modifies this
      ensures Valid()
      ensures processed == old(processed) +
                [ImageRecord(imagePath, BaseName(imagePath), success, duration, error)]
      ensures summary == if success then old(summary).(success := old(summary).success + 1)
                         else old(summary).(failed := old(summary).failed + 1)
      ensures config == old(config) && inputDirectory == old(inputDirectory)
      ensures totalImages == old(totalImages)
    {
      var record := ImageRecord(imagePath, BaseName(imagePath), success, duration, error);
      processed := processed + [record];
      assert processed[..|processed| - 1] == old(processed);
      if success {
        summary := summary.(success := summary.success + 1);
      } else {
        summary := summary.(failed := summary.failed + 1);
      }
    }

    /** `get_summary`: the current totals, as a value of their own. */
    method GetSummary() returns (s: Summary)
      requires Valid()
      ensures s == summary
      ensures s.success + s.failed == |processed| && s.skipped == 0
    {
      s := summary;
    }
  }

  /** A summary taken before a further result keeps its values. */
  method SummaryIsACopy(h: RunHistory, path: string)
    returns (before: Summary, after: Summary)
    requires h.Valid()
    modifies h
    ensures before == old(h.summary)
    ensures after.success + after.failed == before.success + before.failed + 1
  {
    before := h.GetSummary();
    h.AddImageResult(path, true, None, None);
    after := h.GetSummary();
  }

  /** One record per path, all alike but for the path. */
  function Uniform(paths: seq<string>, success: bool, duration: Option<real>,
                   error: Option<string>): (r: seq<ImageRecord>)
    ensures |r| == |paths|
    ensures forall k :: 0 <= k < |paths| ==>
              r[k] == ImageRecord(paths[k], BaseName(paths[k]), success, duration, error)
  {
    seq(|paths|, k requires 0 <= k < |paths| =>
      ImageRecord(paths[k], BaseName(paths[k]), success, duration, error))
  }

  /** The totals after `n` more records, all counted alike. */
  function Bumped(s: Summary, success: bool, n: nat): (r: Summary)
    ensures r.skipped == s.skipped
    ensures r.success + r.failed == s.success + s.failed + n
  {
    if success then s.(success := s.success + n) else s.(failed := s.failed + n)
  }

  lemma UniformSnoc(paths: seq<string>, i: nat, success: bool, duration: Option<real>,
                    error: Option<string>)
    requires i < |paths|
    ensures Uniform(paths[..i + 1], success, duration, error) ==
            Uniform(paths[..i], success, duration, error) +
              [ImageRecord(paths[i], BaseName(paths[i]), success, duration, error)]
  {
  }

  /** Recording the results of a batch: one record per path, all counted
      alike. */
  method RecordAll(h: RunHistory, paths: seq<string>, success: bool, duration: Option<real>,
                   error: Option<string>)
    requires h.Valid()
    modifies h
    ensures h.Valid()
    ensures h.processed == old(h.processed) + Uniform(paths, success, duration, error)
    ensures h.summary == Bumped(old(h.summary), success, |paths|)
    ensures h.config == old(h.config) && h.inputDirectory == old(h.inputDirectory)
    ensures h.totalImages == old(h.totalImages)
  {
    ghost var start := h.processed;
    assert paths[..0] == [];
    for i := 0 to |paths|
      invariant h.Valid()
      invariant h.processed == start + Uniform(paths[..i], success, duration, error)
      invariant h.summary == Bumped(old(h.summary), success, i)
      invariant h.config == old(h.config) && h.inputDirectory == old(h.inputDirectory)
      invariant h.totalImages == old(h.totalImages)
    {
      ghost var before := h.processed;
      h.AddImageResult(paths[i], success, duration, error);
      AppendUniform(start, paths, i, success, duration, error, before, h.processed);
    }
    assert paths[..|paths|] == paths;
  }

  /** One more uniform record extends the uniform tail by that path. */
  lemma AppendUniform(start: seq<ImageRecord>, paths: seq<string>, i: nat, success: bool,
                      duration: Option<real>, error: Option<string>,
                      before: seq<ImageRecord>, after: seq<ImageRecord>)
    requires i < |paths|
    requires before == start + Uniform(paths[..i], success, duration, error)
    requires after == before + [ImageRecord(paths[i], BaseName(paths[i]), success, duration, error)]
    ensures after == start + Uniform(paths[..i + 1], success, duration, error)
  {
    UniformSnoc(paths, i, success, duration, error);
  }

  // ---------------------------------------------------------------------
  // Listing earlier runs.

  /** A counter of a stored summary: the key missing, JSON null, or a number. */
  datatype Counter = Missing | Null | Number(n: int)

  /** The stored `summary`: absent, an object holding the two counters, or
      present but not an object (null, a list, a string ...), on which
      reading a counter raises. */
  datatype SummaryField = NoSummary | SummaryObject(success: Counter, failed: Counter) | NotAnObject

  /** What parsing a history file yields: the fields the listing reads. */
  datatype Loaded = Loaded(runId: Option<string>, startTime: Option<string>,
                           duration: Option<real>, totalImages: Option<int>,
                           summary: SummaryField)

  /** A file in the history directory, in directory order: its path, its
      modification time, and what loading it yields (None when it cannot be
      read or parsed). */
  datatype HistoryFile = HistoryFile(path: string, mtime: int, loaded: Option<Loaded>)

  /** One listed run; a counter is None where the file stores null. */
  datatype HistoryEntry = HistoryEntry(runId: Option<string>, startTime: Option<string>,
                                       duration: Option<real>, totalImages: Option<int>,
                                       success: Option<int>, failed: Option<int>,
                                       filepath: string)

  /** The name pattern `run_*.json`. */
  predicate IsRunFile(name: string) {
    |name| >= 9 && StartsWith(name, "run_") && EndsWith(name, ".json")
  }

  /** The files the pattern selects, in directory order: exactly the files
      whose name matches. */
  function RunFiles(files: seq<HistoryFile>): (r: seq<HistoryFile>)
    ensures forall x :: x in r ==> x in files && IsRunFile(BaseName(x.path))
    ensures forall x :: x in files && IsRunFile(BaseName(x.path)) ==> x in r
    decreases |files|
  {
    if |files| == 0 then []
    else
      var f := files[|files| - 1];
      RunFiles(files[..|files| - 1]) + (if IsRunFile(BaseName(f.path)) then [f] else [])
  }

  predicate NewestFirst(s: seq<HistoryFile>) {
    forall i, j :: 0 <= i < j < |s| ==> s[i].mtime >= s[j].mtime
  }

  /** Place a file after every file at least as new: a stable insertion. */
  function InsertByAge(f: HistoryFile, s: seq<HistoryFile>): (r: seq<HistoryFile>)
    decreases |s|
  {
    if |s| == 0 || f.mtime > s[0].mtime then [f] + s else [s[0]] + InsertByAge(f, s[1..])
  }

  lemma {:induction false} InsertByAgePermutes(f: HistoryFile, s: seq<HistoryFile>)
    ensures multiset(InsertByAge(f, s)) == multiset(s) + multiset{f}
    decreases |s|
  {
    if |s| > 0 && f.mtime <= s[0].mtime {
      assert s == [s[0]] + s[1..];
      InsertByAgePermutes(f, s[1..]);
    }
  }

  /** A file at least as new as `f` and as every file of `s` is at least as
      new as every file of any permutation of `s + [f]`. */
  lemma NewerThanPermutation(g: HistoryFile, f: HistoryFile, s: seq<HistoryFile>,
                             t: seq<HistoryFile>)
    requires multiset(t) == multiset(s) + multiset{f}
    requires g.mtime >= f.mtime && forall k :: 0 <= k < |s| ==> g.mtime >= s[k].mtime
    ensures forall k :: 0 <= k < |t| ==> g.mtime >= t[k].mtime
  {
    forall k | 0 <= k < |t| ensures g.mtime >= t[k].mtime {
      assert t[k] in multiset(t);
      assert t[k] == f || t[k] in multiset(s);
    }
  }

  lemma {:induction false} InsertByAgeCorrect(f: HistoryFile, s: seq<HistoryFile>)
    requires NewestFirst(s)
    ensures NewestFirst(InsertByAge(f, s))
    ensures multiset(InsertByAge(f, s)) == multiset(s) + multiset{f}
    decreases |s|
  {
    InsertByAgePermutes(f, s);
    if |s| > 0 && f.mtime <= s[0].mtime {
      var rest := s[1..];
      assert forall k :: 0 <= k < |rest| ==> rest[k] == s[k + 1];
      InsertByAgeCorrect(f, rest);
      NewerThanPermutation(s[0], f, rest, InsertByAge(f, rest));
    }
  }

  /** `sorted(files, key=mtime, reverse=True)`. */
  function SortNewestFirst(files: seq<HistoryFile>): seq<HistoryFile>
    decreases |files|
  {
    if |files| == 0 then []
    else InsertByAge(files[|files| - 1], SortNewestFirst(files[..|files| - 1]))
  }

  lemma {:induction false} SortNewestFirstCorrect(files: seq<HistoryFile>)
    ensures NewestFirst(SortNewestFirst(files))
    ensures multiset(SortNewestFirst(files)) == multiset(files)
    decreases |files|
  {
    if |files| > 0 {
      var init := files[..|files| - 1];
      var last := files[|files| - 1];
      assert SortNewestFirst(files) == InsertByAge(last, SortNewestFirst(init));
      SortNewestFirstCorrect(init);
      InsertByAgeCorrect(last, SortNewestFirst(init));
      assert files == init + [last];
      assert multiset(files) == multiset(init) + multiset{last};
    }
  }

  /** The length of `xs[:limit]` for a list of length n, negative limits
      counting from the end. */
  function SliceEnd(n: nat, limit: int): (r: nat)
    ensures r <= n
    ensures limit >= 0 ==> r == if limit < n then limit else n
    ensures limit < 0 ==> r == if n + limit > 0 then n + limit else 0
  {
    if limit >= 0 then (if limit < n then limit else n)
    else if n + limit > 0 then n + limit else 0
  }

  /** A file the loop lists: it parses, and its summary, when present, is an
      object, so that reading the counters does not raise. */
  predicate Loads(f: HistoryFile) {
    f.loaded.Some? && !f.loaded.value.summary.NotAnObject?
  }

  /** The files that load, in order: exactly those of `files` that load. */
  function Loadable(files: seq<HistoryFile>): (r: seq<HistoryFile>)
    ensures |r| <= |files|
    ensures forall x :: x in r ==> x in files && Loads(x)
    ensures forall x :: x in files && Loads(x) ==> x in r
    decreases |files|
  {
    if |files| == 0 then []
    else
      var f := files[|files| - 1];
      Loadable(files[..|files| - 1]) + (if Loads(f) then [f] else [])
  }

  /** `summary.get(key, 0)`: a missing key reads as 0, a stored null as None. */
  function CounterValue(c: Counter): Option<int> {
    match c
    case Missing => Some(0)
    case Null => None
    case Number(n) => Some(n)
  }

  /** The summary row of one file: the stored fields, with counters that
      read as 0 when the summary or the key is missing and as None when the
      file stores null. */
  function EntryOf(f: HistoryFile): (r: HistoryEntry)
    requires Loads(f)
    ensures r.filepath == f.path && r.runId == f.loaded.value.runId &&
            r.startTime == f.loaded.value.startTime && r.duration == f.loaded.value.duration &&
            r.totalImages == f.loaded.value.totalImages
    ensures f.loaded.value.summary.NoSummary? ==> r.success == Some(0) && r.failed == Some(0)
    ensures f.loaded.value.summary.SummaryObject? ==>
              (r.success.None? <==> f.loaded.value.summary.success.Null?) &&
              (r.failed.None? <==> f.loaded.value.summary.failed.Null?)
    ensures f.loaded.value.summary.SummaryObject? && f.loaded.value.summary.success.Number? ==>
              r.success == Some(f.loaded.value.summary.success.n)
    ensures f.loaded.value.summary.SummaryObject? && f.loaded.value.summary.failed.Number? ==>
              r.failed == Some(f.loaded.value.summary.failed.n)
  {
    var d := f.loaded.value;
    HistoryEntry(d.runId, d.startTime, d.duration, d.totalImages,
                 if d.summary.NoSummary? then Some(0) else CounterValue(d.summary.success),
                 if d.summary.NoSummary? then Some(0) else CounterValue(d.summary.failed),
                 f.path)
  }

  /** The entries listed for a sequence of candidate files. */
  function Entries(files: seq<HistoryFile>): (r: seq<HistoryEntry>)
    ensures |r| == |Loadable(files)|
  {
    var k := Loadable(files);
    seq(|k|, i requires 0 <= i < |k| => EntryOf(k[i]))
  }

  lemma EntriesSnoc(files: seq<HistoryFile>, i: nat)
    requires i < |files|
    ensures Entries(files[..i + 1]) ==
            Entries(files[..i]) + (if Loads(files[i]) then [EntryOf(files[i])] else [])
  {
    assert files[..i + 1][..i] == files[..i];
    var before := Loadable(files[..i]);
    var after := Loadable(files[..i + 1]);
    assert after == before + (if Loads(files[i]) then [files[i]] else []);
    assert forall k :: 0 <= k < |before| ==> after[k] == before[k];
  }

  /** The candidates of `list_run_histories`: the run files, newest first,
      cut at the limit. */
  function Candidates(files: seq<HistoryFile>, limit: int): seq<HistoryFile> {
    var sorted := SortNewestFirst(RunFiles(files));
    sorted[..SliceEnd(|sorted|, limit)]
  }

  /** `list_run_histories`. */
  method ListRunHistories(dirExists: bool, files: seq<HistoryFile>, limit: int)
    returns (histories: seq<HistoryEntry>)
    ensures !dirExists ==> histories == []
    ensures dirExists ==> histories == Entries(Candidates(files, limit))
  {
    if !dirExists {
      return [];
    }
    var candidates := Candidates(files, limit);
    histories := LoadEach(candidates);
  }

  /** The loading loop of `list_run_histories`: one entry per file that
      loads, in order; a file that fails to load is skipped. */
  method LoadEach(candidates: seq<HistoryFile>) returns (histories: seq<HistoryEntry>)
    ensures histories == Entries(candidates)
  {
    histories := [];
    for i := 0 to |candidates|
      invariant histories == Entries(candidates[..i])
    {
      EntriesSnoc(candidates, i);
      var f := candidates[i];
      if Loads(f) {
        histories := histories + [EntryOf(f)];
      }
    }
    assert candidates[..|candidates|] == candidates;
  }

  /** Loading failures are skipped without disturbing the order. */
  lemma {:induction false} LoadableNewestFirst(files: seq<HistoryFile>)
    requires NewestFirst(files)
    ensures NewestFirst(Loadable(files))
    decreases |files|
  {
    if |files| > 0 {
      var init := files[..|files| - 1];
      assert NewestFirst(init);
      LoadableNewestFirst(init);
      var last := files[|files| - 1];
      forall x | x in Loadable(init) ensures x.mtime >= last.mtime {
        var i :| 0 <= i < |init| && init[i] == x;
        assert files[i] == x;
      }
    }
  }

  /** The listing holds at most `limit` runs (for a non-negative limit), all
      run files, newest first; and when the limit leaves room for every run
      file, every run file that loads is listed. */
  lemma ListingShape(files: seq<HistoryFile>, limit: int)
    ensures limit >= 0 ==> |Entries(Candidates(files, limit))| <= limit
    ensures NewestFirst(Loadable(Candidates(files, limit)))
    ensures forall x :: x in Loadable(Candidates(files, limit)) ==> x in files && IsRunFile(BaseName(x.path))
    ensures limit >= |RunFiles(files)| ==>
              forall x :: x in files && IsRunFile(BaseName(x.path)) && Loads(x) ==>
                x in Loadable(Candidates(files, limit))
  {
    var sorted := SortNewestFirst(RunFiles(files));
    SortNewestFirstCorrect(RunFiles(files));
    var c := Candidates(files, limit);
    assert NewestFirst(c);
    LoadableNewestFirst(c);
    forall x | x in Loadable(c) ensures x in files && IsRunFile(BaseName(x.path)) {
      assert x in sorted;
      assert x in multiset(RunFiles(files));
    }
    if limit >= |RunFiles(files)| {
      assert |sorted| == |multiset(sorted)| == |RunFiles(files)|;
      assert c == sorted;
      forall x | x in files && IsRunFile(BaseName(x.path)) && Loads(x)
        ensures x in Loadable(c)
      {
        assert x in multiset(RunFiles(files));
        assert x in multiset(sorted);
      }
    }
  }
}
