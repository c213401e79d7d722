/** Listing the images of an input directory (config/base_config.py,
    `BaseConfig.get_image_files`). The directory is the set of names in it;
    glob patterns of the form `*ext` are matched on names
    case-sensitively, as on a POSIX file system. */
module BaseConfig {
  import opened Common
  import opened Text

  /** `SUPPORTED_IMAGE_EXTENSIONS`. */
  const SupportedImageExtensions := [".jpg", ".jpeg", ".png", ".tiff", ".tif", ".bmp", ".webp"]

  /** `directory.glob("*" + pattern)` in a flat directory. */
  function Glob(files: set<string>, pattern: string): (r: set<string>)
    ensures forall f :: f in r <==> f in files && EndsWith(f, pattern)
  {
    set f | f in files && EndsWith(f, pattern)
  }

  /** The name matches extension `j` in its lower- or upper-case form. */
  predicate MatchesExtension(f: string, j: int)
    requires 0 <= j < |SupportedImageExtensions|
  {
    EndsWith(f, SupportedImageExtensions[j]) || EndsWith(f, Upper(SupportedImageExtensions[j]))
  }

  /** The name matches one of the first `i` supported extensions. */
  predicate MatchesOneOf(f: string, i: int)
    requires 0 <= i <= |SupportedImageExtensions|
  {
    exists j :: 0 <= j < i && MatchesExtension(f, j)
  }

  predicate Supported(f: string) {
    MatchesOneOf(f, |SupportedImageExtensions|)
  }

  /** `Path(name).stem`: the name without its last suffix, where a leading
      dot or a trailing dot does not start a suffix. */
  function PathStem(name: string): (r: string)
    ensures |r| <= |name| && r == name[..|r|]
    ensures |r| < |name| ==> 0 < |r| < |name| - 1 && name[|r|] == '.' &&
                             forall k :: |r| < k < |name| ==> name[k] != '.'
  {
    var i := LastIndexOf(name, '.');
    if 0 < i < |name| - 1 then name[..i] else name
  }

  /** `Path(name).suffix`: what follows the stem, a dot and at least one
      further character, or nothing. */
  function PathSuffix(name: string): (r: string)
    ensures PathStem(name) + r == name
    ensures |r| > 0 ==> |r| >= 2 && r[0] == '.' && forall k :: 0 < k < |r| ==> r[k] != '.'
  {
    var stem := PathStem(name);
    assert name == stem + name[|stem|..];
    name[|stem|..]
  }

  /** Appending a suffix to a non-empty name makes it that name's suffix. */
  lemma StemOfSuffixed(base: string, ext: string)
    requires |base| > 0 && |ext| >= 2 && ext[0] == '.'
    requires forall k :: 0 < k < |ext| ==> ext[k] != '.'
    ensures PathStem(base + ext) == base && PathSuffix(base + ext) == ext
  {
    var name := base + ext;
    var i := LastIndexOf(name, '.');
    assert name[|base|] == '.';
    assert forall k :: |base| < k < |name| ==> name[k] == ext[k - |base|];
    assert i == |base|;
  }

  /** The exclusion test: the lower-cased stem holds one of the lower-cased
      suffixes. */
  predicate Processed(f: string, excludeSuffixes: seq<string>) {
    exists k :: 0 <= k < |excludeSuffixes| && IsInfix(Lower(excludeSuffixes[k]), Lower(PathStem(f)))
  }

  function Unprocessed(excludeSuffixes: seq<string>): string -> bool {
    f => !Processed(f, excludeSuffixes)
  }

  /** `list(image_files_set)`: the elements of a set, each once, in an
      order the model leaves open. */
  method ListOf(s: set<string>) returns (xs: seq<string>)
    ensures Distinct(xs)
    ensures forall x :: x in xs <==> x in s
  {
    xs := [];
    var rest := s;
    while rest != {}
      invariant rest <= s && Distinct(xs)
      invariant forall x :: x in s <==> x in rest || x in xs
      invariant forall x :: x in xs ==> x !in rest
      decreases |rest|
    {
      var x :| x in rest;
      xs := xs + [x];
      rest := rest - {x};
    }
  }

  /** The union of the globs for every supported extension, in lower and
      upper case. */
  method GlobSupported(files: set<string>) returns (found: set<string>)
    ensures forall f :: f in found <==> f in files && Supported(f)
  {
    found := {};
    for i := 0 to |SupportedImageExtensions|
      invariant forall f :: f in found <==> f in files && MatchesOneOf(f, i)
    {
      ghost var before := found;
      found := found + Glob(files, SupportedImageExtensions[i]);
      found := found + Glob(files, Upper(SupportedImageExtensions[i]));
      forall f | f in found
        ensures MatchesOneOf(f, i + 1)
      {
        if f in before {
          var j :| 0 <= j < i && MatchesExtension(f, j);
        } else {
          assert MatchesExtension(f, i);
        }
      }
      forall f | f in files && MatchesOneOf(f, i + 1)
        ensures f in found
      {
        var j :| 0 <= j < i + 1 && MatchesExtension(f, j);
        if j < i {
          assert MatchesOneOf(f, i);
        }
      }
    }
  }

  /** The exclusion pass: the files not processed, in their order. No
      suffixes filter nothing. */
  method DropProcessed(listed: seq<string>, excludeSuffixes: seq<string>)
    returns (kept: seq<string>)
    requires Distinct(listed)
    ensures Distinct(kept)
    ensures forall f :: f in kept <==> f in listed && !Processed(f, excludeSuffixes)
  {
    if |excludeSuffixes| == 0 {
      forall f | f in listed ensures !Processed(f, excludeSuffixes) { }
      return listed;
    }
    kept := [];
    for i := 0 to |listed|
      invariant kept == Filter(listed[..i], Unprocessed(excludeSuffixes))
    {
      FilterSnoc(listed, Unprocessed(excludeSuffixes), i);
      var isProcessed := Processed(listed[i], excludeSuffixes);
      if !isProcessed {
        kept := kept + [listed[i]];
      }
    }
    assert listed[..|listed|] == listed;
    FilterDistinct(listed, Unprocessed(excludeSuffixes));
  }

  /** `images` is what `get_image_files` lists: sorted, and exactly the
      supported, unprocessed files of an existing directory. */
  ghost predicate ImageListing(images: seq<string>, dirExists: bool, files: set<string>,
                         excludeSuffixes: seq<string>) {
    StrictlySorted(images) &&
    forall f :: f in images <==>
      dirExists && f in files && Supported(f) && !Processed(f, excludeSuffixes)
  }

  /** `get_image_files`: [] for a missing directory; otherwise the supported
      files whose stem holds none of `excludeSuffixes` (case-insensitively),
      each once, in sorted order. An empty `excludeSuffixes` stands for both
      `None` and `[]`, which filter nothing. */
  method GetImageFiles(dirExists: bool, files: set<string>, excludeSuffixes: seq<string>)
    returns (r: seq<string>)
    ensures !dirExists ==> r == []
    ensures StrictlySorted(r) && Distinct(r)
    ensures forall f :: f in r <==>
              dirExists && f in files && Supported(f) && !Processed(f, excludeSuffixes)
    ensures ImageListing(r, dirExists, files, excludeSuffixes)
  {
    if !dirExists {
      return [];
    }
    var found := GlobSupported(files);
    var listed := ListOf(found);
    var kept := DropProcessed(listed, excludeSuffixes);
    SortDistinctCorrect(kept);
    r := SortDistinct(kept);
    StrictlySortedDistinct(r);
    forall f ensures f in r <==> f in kept {
      assert f in r <==> f in multiset(r);
      assert f in kept <==> f in multiset(kept);
    }
  }

  /** Filtering a list without repeats yields a list without repeats. */
  lemma {:induction false} FilterDistinct(s: seq<string>, p: string -> bool)
    requires Distinct(s)
    ensures Distinct(Filter(s, p))
    decreases |s|
  {
    if |s| > 0 {
      var init := s[..|s| - 1];
      var last := s[|s| - 1];
      assert forall k :: 0 <= k < |init| ==> init[k] == s[k];
      FilterDistinct(init, p);
      assert last !in init;
      assert last !in Filter(init, p);
    }
  }

  lemma StrictlySortedDistinct(r: seq<string>)
    requires StrictlySorted(r)
    ensures Distinct(r)
  {
    forall i, j | 0 <= i < j < |r| ensures r[i] != r[j] {
      if r[i] == r[j] {
        BelowIrreflexive(r[i]);
      }
    }
  }

  /** A suffix list holding the empty string excludes every file: `"" in
      stem` always holds. */
  lemma EmptySuffixExcludesEverything(f: string)
    ensures Processed(f, [""])
  {
    var stem := Lower(PathStem(f));
    assert Lower("") == "";
    assert stem[0..0] == "";
    assert OccursAt("", stem, 0);
    assert IsInfix(Lower([""][0]), stem);
  }
}
