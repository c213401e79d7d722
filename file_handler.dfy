/** Output-file helpers (utils/file_handler.py). The file system is outside
    the model: a directory is the set of names present in it, a file's size
    is a reading, and the clock is the sequence of readings of the wait
    loop. */
module FileHandler {
  import opened Common
  import opened Text
  import opened Clock

  /** `f"{base_name}_{counter}{extension}"`. */
  function Candidate(base: string, ext: string, n: nat): string {
    base + "_" + NatToString(n) + ext
  }

  /** Different counters give different names, so each probe of the search
      looks at a name not looked at before. */
  lemma CandidateInjective(base: string, ext: string, m: nat, n: nat)
    requires Candidate(base, ext, m) == Candidate(base, ext, n)
    ensures m == n
  {
    var a := NatToString(m);
    var b := NatToString(n);
    var c := Candidate(base, ext, m);
    var lo := |base| + 1;
    assert |a| == |b|;
    assert c[lo..lo + |a|] == a;
    assert Candidate(base, ext, n)[lo..lo + |b|] == b;
    NatToStringInjective(m, n);
  }

  /** `name` is the name `get_unique_filename` settles on: free, and the
      first free one of `base + ext`, `base_1 + ext`, `base_2 + ext`, ... */
  ghost predicate FirstFree(existing: set<string>, base: string, ext: string, name: string) {
    name !in existing &&
    (base + ext !in existing ==> name == base + ext) &&
    (base + ext in existing ==>
       exists n: nat :: n >= 1 && name == Candidate(base, ext, n) &&
         forall k :: 1 <= k < n ==> Candidate(base, ext, k) in existing)
  }

  /** The search has one answer. */
  lemma FirstFreeUnique(existing: set<string>, base: string, ext: string, a: string, b: string)
    requires FirstFree(existing, base, ext, a) && FirstFree(existing, base, ext, b)
    ensures a == b
  {
    if base + ext in existing {
      var m: nat :| m >= 1 && a == Candidate(base, ext, m) &&
        forall k :: 1 <= k < m ==> Candidate(base, ext, k) in existing;
      var n: nat :| n >= 1 && b == Candidate(base, ext, n) &&
        forall k :: 1 <= k < n ==> Candidate(base, ext, k) in existing;
      assert Candidate(base, ext, m) !in existing && Candidate(base, ext, n) !in existing;
      assert m == n;
    }
  }

  /** `get_unique_filename`: `base + ext` when that name is free, otherwise
      `base_N + ext` for the smallest `N >= 1` that is free. `counter` is 0
      in the first case and `N` in the second. The directory is finite, so
      the search ends. */
  method GetUniqueFilename(existing: set<string>, base: string, ext: string)
    returns (name: string, counter: nat)
    ensures name !in existing
    ensures counter == 0 <==> base + ext !in existing
    ensures counter == 0 ==> name == base + ext
    ensures counter > 0 ==> name == Candidate(base, ext, counter) &&
                            forall k :: 1 <= k < counter ==> Candidate(base, ext, k) in existing
    ensures FirstFree(existing, base, ext, name)
  {
    if base + ext !in existing {
      return base + ext, 0;
    }
    counter := 1;
    ghost var tried: set<string> := {};
    while Candidate(base, ext, counter) in existing
      invariant counter >= 1
      invariant tried <= existing && |tried| == counter - 1
      invariant forall k :: 1 <= k < counter ==> Candidate(base, ext, k) in tried
      invariant forall x :: x in tried ==> exists k :: 1 <= k < counter && x == Candidate(base, ext, k)
      decreases |existing| - |tried|
    {
      var c := Candidate(base, ext, counter);
      if c in tried {
        var k :| 1 <= k < counter && c == Candidate(base, ext, k);
        CandidateInjective(base, ext, k, counter);
      }
      SubsetSmaller(tried + {c}, existing);
      tried := tried + {c};
      counter := counter + 1;
    }
    name := Candidate(base, ext, counter);
  }

  lemma {:induction false} SubsetSmaller(a: set<string>, b: set<string>)
    requires a <= b
    ensures |a| <= |b|
    decreases |b|
  {
    if a != {} {
      var x :| x in a;
      SubsetSmaller(a - {x}, b - {x});
    }
  }

  /** `is_file_ready`: the file exists and two size readings taken apart
      agree and are positive. A reading that raises is None and makes the
      answer false. */
  function IsFileReady(fileExists: bool, size1: Option<int>, size2: Option<int>): (ready: bool)
    ensures !fileExists ==> !ready
    ensures ready <==> fileExists && size1.Some? && size2.Some? &&
                       size1.value == size2.value && size1.value > 0
  {
    if !fileExists then false
    else match (size1, size2)
      case (Some(a), Some(b)) => a == b && a > 0
      case _ => false
  }

  function Present(): bool -> bool {
    b => b
  }

  /** `wait_for_file`: `present[k]` is whether the file exists at iteration
      `k`; true at the first iteration that sees it, false once the deadline
      passes. */
  method WaitForFile(clock: seq<int>, start: int, timeout: int, present: seq<bool>)
    returns (ok: bool, poll: Option<nat>)
    requires ClockReaches(clock, start, timeout)
    requires |present| >= Polls(clock, start, timeout)
    ensures poll == FirstWhere(present[..Polls(clock, start, timeout)], Present())
    ensures ok <==> exists k :: 0 <= k < Polls(clock, start, timeout) && present[k]
  {
    poll := WaitUntil(clock, start, timeout, present, Present());
    ok := poll.Some?;
    ghost var n := Polls(clock, start, timeout);
    assert forall k :: 0 <= k < n ==> present[..n][k] == present[k];
  }
}
