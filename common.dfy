/** Values shared by every component: optional values, screen points, window
    rectangles, and the poll budget of a fixed-interval wait loop. */
module Common {

  datatype Option<T> = None | Some(value: T)

  /** A screen coordinate in pixels. */
  datatype Point = Point(x: int, y: int)

  /** A rectangle as the window system reports it: left, top, right, bottom. */
  datatype Bounds = Bounds(left: int, top: int, right: int, bottom: int)

  /** A rectangle as origin and size: the form screen capture takes. */
  datatype Region = Region(x: int, y: int, width: int, height: int)

  /** What a call made by a controller does: it answers, or it raises. */
  datatype Outcome = Returned(ok: bool) | Raised(error: string)

  /** The counters a batch run reports. */
  datatype BatchResult = BatchResult(success: nat, failed: nat, total: nat)

  /** Number of iterations of a loop `elapsed := start; while elapsed < timeout
      { ...; elapsed := elapsed + interval }` that never exits early. All
      times are integer ticks. */
  function Iterations(start: int, interval: int, timeout: int): nat
    requires interval > 0
    decreases timeout - start
  {
    if start >= timeout then 0 else 1 + Iterations(start + interval, interval, timeout)
  }

  /** The last poll of such a loop happens before the timeout, and the loop
      leaves with `elapsed` at or past it but less than one interval beyond. */
  lemma {:induction false} IterationsBound(start: int, interval: int, timeout: int)
    requires interval > 0
    ensures start + Iterations(start, interval, timeout) * interval >= timeout
    ensures Iterations(start, interval, timeout) > 0 ==>
              start + (Iterations(start, interval, timeout) - 1) * interval < timeout
    ensures start < timeout ==>
              start + Iterations(start, interval, timeout) * interval < timeout + interval
    decreases timeout - start
  {
    if start < timeout {
      var m := Iterations(start + interval, interval, timeout);
      IterationsBound(start + interval, interval, timeout);
      assert (1 + m) * interval == interval + m * interval;
      if m > 0 {
        assert m * interval == interval + (m - 1) * interval;
      }
    }
  }

  /** The loop never runs more often than when interval and timeout are fixed
      and it starts later: a longer grace period means fewer polls. */
  lemma {:induction false} IterationsAntitone(a: int, b: int, interval: int, timeout: int)
    requires interval > 0 && a <= b
    ensures Iterations(b, interval, timeout) <= Iterations(a, interval, timeout)
    decreases timeout - a
  {
    if a < timeout && b < timeout {
      IterationsAntitone(a + interval, b + interval, interval, timeout);
    }
  }

  /** Python's `int(x)` on a float: truncation toward zero. */
  function Trunc(x: real): (r: int)
    ensures x >= 0.0 ==> r == x.Floor
    ensures x >= 0.0 ==> r as real <= x < r as real + 1.0
    ensures x < 0.0 ==> x <= r as real < x + 1.0 && r <= 0
  {
    if x >= 0.0 then x.Floor else -((-x).Floor)
  }

  // ---------------------------------------------------------------------
  // Scanning a sequence: the first element that qualifies, and all of them
  // in order (the lists the enumeration callbacks build).

  /** Index of the first element satisfying `p`. */
  function FirstWhere<T>(s: seq<T>, p: T -> bool): (r: Option<nat>)
    ensures r.Some? ==> r.value < |s| && p(s[r.value])
    ensures r.Some? ==> forall k :: 0 <= k < r.value ==> !p(s[k])
    ensures r.None? ==> forall k :: 0 <= k < |s| ==> !p(s[k])
    decreases |s|
  {
    if |s| == 0 then None
    else if p(s[0]) then Some(0)
    else match FirstWhere(s[1..], p)
      case None => None
      case Some(i) => Some(i + 1)
  }

  /** A first hit within a prefix stays the first hit of any longer prefix:
      looking further never changes an earlier verdict. */
  lemma FirstWherePrefix<T>(s: seq<T>, p: T -> bool, m: nat, n: nat)
    requires m <= n <= |s|
    requires FirstWhere(s[..m], p).Some?
    ensures FirstWhere(s[..n], p) == FirstWhere(s[..m], p)
  {
    var i := FirstWhere(s[..m], p).value;
    assert s[..n][i] == s[..m][i];
    assert forall k :: 0 <= k < i ==> s[..n][k] == s[..m][k];
  }

  /** The elements satisfying `p`, in their original order. */
  function Filter<T>(s: seq<T>, p: T -> bool): (r: seq<T>)
    ensures |r| <= |s|
    ensures forall k :: 0 <= k < |r| ==> r[k] in s && p(r[k])
    ensures forall k :: 0 <= k < |s| && p(s[k]) ==> s[k] in r
    decreases |s|
  {
    if |s| == 0 then []
    else
      var init := s[..|s| - 1];
      assert s == init + [s[|s| - 1]];
      Filter(init, p) + (if p(s[|s| - 1]) then [s[|s| - 1]] else [])
  }

  /** Filtering a growing prefix. */
  lemma FilterSnoc<T>(s: seq<T>, p: T -> bool, i: nat)
    requires i < |s|
    ensures Filter(s[..i + 1], p) == Filter(s[..i], p) + (if p(s[i]) then [s[i]] else [])
  {
    assert s[..i + 1][..i] == s[..i];
  }

  /** Counting the qualifying elements of a growing prefix. */
  lemma FilterCountSnoc<T>(s: seq<T>, p: T -> bool, i: nat)
    requires i < |s|
    ensures |Filter(s[..i + 1], p)| == |Filter(s[..i], p)| + (if p(s[i]) then 1 else 0)
  {
    assert s[..i + 1][..i] == s[..i];
  }

  /** The first hit of a sequence, from the first hit of all but its last
      element. */
  lemma FirstWhereSnoc<T>(s: seq<T>, p: T -> bool)
    requires |s| > 0
    ensures FirstWhere(s[..|s| - 1], p).Some? ==> FirstWhere(s, p) == FirstWhere(s[..|s| - 1], p)
    ensures FirstWhere(s[..|s| - 1], p).None? && p(s[|s| - 1]) ==> FirstWhere(s, p) == Some(|s| - 1)
    ensures FirstWhere(s[..|s| - 1], p).None? && !p(s[|s| - 1]) ==> FirstWhere(s, p).None?
  {
    var init := s[..|s| - 1];
    if FirstWhere(init, p).Some? {
      FirstWherePrefix(s, p, |s| - 1, |s|);
      assert s[..|s|] == s;
    } else {
      forall k | 0 <= k < |s| - 1 ensures !p(s[k]) {
        assert init[k] == s[k];
      }
    }
  }

  /** Filtering keeps the original order: the kept elements are a
      subsequence, so the first kept element is the first qualifying one. */
  lemma {:induction false} FilterFirst<T>(s: seq<T>, p: T -> bool)
    ensures |Filter(s, p)| > 0 <==> FirstWhere(s, p).Some?
    ensures |Filter(s, p)| > 0 ==> Filter(s, p)[0] == s[FirstWhere(s, p).value]
    decreases |s|
  {
    if |s| > 0 {
      var init := s[..|s| - 1];
      var last := s[|s| - 1];
      FilterFirst(init, p);
      FirstWhereSnoc(s, p);
      assert Filter(s, p) == Filter(init, p) + (if p(last) then [last] else []);
      var f := FirstWhere(init, p);
      if f.Some? {
        assert s[f.value] == init[f.value];
      }
    }
  }
}
