/** The wall-clock wait loops `start = time.time(); while time.time() - start
    < timeout: ...`. The clock is the sequence of readings the loop condition
    takes, one per evaluation; what an iteration observes is a second
    sequence, one element per iteration. */
module Clock {
  import opened Common

  /** Some reading is at or past the deadline, so such a loop ends. */
  predicate ClockReaches(clock: seq<int>, start: int, timeout: int) {
    exists k :: 0 <= k < |clock| && clock[k] - start >= timeout
  }

  function FirstExpiredFrom(clock: seq<int>, start: int, timeout: int, i: nat): (r: nat)
    requires i <= |clock|
    requires exists k :: i <= k < |clock| && clock[k] - start >= timeout
    ensures i <= r < |clock| && clock[r] - start >= timeout
    ensures forall k :: i <= k < r ==> clock[k] - start < timeout
    decreases |clock| - i
  {
    if clock[i] - start >= timeout then i
    else FirstExpiredFrom(clock, start, timeout, i + 1)
  }

  /** Number of iterations such a loop makes when nothing ends it early: the
      index of the first reading at or past the deadline. */
  function Polls(clock: seq<int>, start: int, timeout: int): (n: nat)
    requires ClockReaches(clock, start, timeout)
    ensures n < |clock| && clock[n] - start >= timeout
    ensures forall k :: 0 <= k < n ==> clock[k] - start < timeout
  {
    FirstExpiredFrom(clock, start, timeout, 0)
  }

  /** A later deadline never shortens the wait. */
  lemma PollsMonotone(clock: seq<int>, start: int, t1: int, t2: int)
    requires t1 <= t2
    requires ClockReaches(clock, start, t2)
    ensures ClockReaches(clock, start, t1)
    ensures Polls(clock, start, t1) <= Polls(clock, start, t2)
  {
    var n2 := Polls(clock, start, t2);
    assert clock[n2] - start >= t1;
  }

  /** The generic body: each iteration tests its observation and returns at
      the first hit; once the clock reads past the deadline the loop ends. */
  method WaitUntil<T>(clock: seq<int>, start: int, timeout: int, obs: seq<T>, hit: T -> bool)
    returns (poll: Option<nat>)
    requires ClockReaches(clock, start, timeout)
    requires |obs| >= Polls(clock, start, timeout)
    ensures poll == FirstWhere(obs[..Polls(clock, start, timeout)], hit)
  {
    var n := Polls(clock, start, timeout);
    var i := 0;
    while clock[i] - start < timeout
      invariant 0 <= i <= n
      invariant forall k :: 0 <= k < i ==> !hit(obs[k])
      decreases n - i
    {
      if hit(obs[i]) {
        assert obs[..n][i] == obs[i];
        assert forall k :: 0 <= k < i ==> obs[..n][k] == obs[k];
        return Some(i);
      }
      i := i + 1;
    }
    assert forall k :: 0 <= k < n ==> obs[..n][k] == obs[k];
    return None;
  }

  /** Waiting longer never loses a detection: with the same clock and the
      same observations, a hit found before the shorter deadline is the hit
      found before the longer one. */
  lemma LongerWaitKeepsHit<T>(clock: seq<int>, start: int, t1: int, t2: int,
                              obs: seq<T>, hit: T -> bool)
    requires t1 <= t2
    requires ClockReaches(clock, start, t2)
    requires |obs| >= Polls(clock, start, t2)
    requires ClockReaches(clock, start, t1)
    requires FirstWhere(obs[..Polls(clock, start, t1)], hit).Some?
    ensures FirstWhere(obs[..Polls(clock, start, t2)], hit) ==
            FirstWhere(obs[..Polls(clock, start, t1)], hit)
  {
    PollsMonotone(clock, start, t1, t2);
    FirstWherePrefix(obs, hit, Polls(clock, start, t1), Polls(clock, start, t2));
  }
}
