/**
The bad-lookup limiter of the follow-session registry: a fixed window that restarts on the first
call at least ten seconds after it began.  `Admitted` counts the calls that are not limited.
*/
module RateLimit {
  const THRESHOLD := 100
  const WINDOW_SECONDS := 10.0

  datatype Limiter = Limiter(count: int, windowStart: real)

  const UNUSED_LIMITER := Limiter(0, 0.0)

  predicate Restarts(s: Limiter, now: real) {
    now - s.windowStart >= WINDOW_SECONDS
  }

  function After(s: Limiter, now: real): Limiter {
    if Restarts(s, now) then Limiter(1, now) else Limiter(s.count + 1, s.windowStart)
  }

  predicate Limited(s: Limiter, now: real) {
    !Restarts(s, now) && s.count + 1 > THRESHOLD
  }

  class FollowSessionRegistry {
    var badLookupCount: int
    var badLookupWindowStart: real

    function State(): Limiter
      reads this
    {
      Limiter(badLookupCount, badLookupWindowStart)
    }

    constructor ()
      ensures State() == UNUSED_LIMITER
    {
      badLookupCount := 0;
      badLookupWindowStart := 0.0;
    }

    method IsRateLimited(now: real) returns (limited: bool)
      modifies this
      ensures State() == After(old(State()), now)
      ensures limited == Limited(old(State()), now)
      ensures limited <==> now < old(badLookupWindowStart) + 10.0 && old(badLookupCount) >= 100
      ensures now < old(badLookupWindowStart) + 10.0 ==>
                badLookupCount == old(badLookupCount) + 1 && badLookupWindowStart == old(badLookupWindowStart)
      ensures now >= old(badLookupWindowStart) + 10.0 ==> badLookupCount == 1 && badLookupWindowStart == now
    {
      var elapsed := now - badLookupWindowStart;
      if elapsed >= WINDOW_SECONDS {
        badLookupWindowStart := now;
        badLookupCount := 1;
        return false;
      }
      badLookupCount := badLookupCount + 1;
      return badLookupCount > THRESHOLD;
    }
  }

  // Runs

  function AfterAll(s: Limiter, times: seq<real>): Limiter
    decreases |times|
  {
    if times == [] then s else AfterAll(After(s, times[0]), times[1..])
  }

  function Admitted(s: Limiter, times: seq<real>): nat
    decreases |times|
  {
    if times == [] then 0
    else (if Limited(s, times[0]) then 0 else 1) + Admitted(After(s, times[0]), times[1..])
  }

  ghost predicate NonDecreasing(times: seq<real>) {
    forall i, j :: 0 <= i <= j < |times| ==> times[i] <= times[j]
  }

  function Min(a: int, b: int): int {
    if a <= b then a else b
  }

  /** What the current window still admits. */
  function Room(s: Limiter): nat {
    if s.count >= THRESHOLD then 0 else THRESHOLD - s.count
  }

  lemma {:induction false} CountNonNegative(s: Limiter, times: seq<real>)
    requires s.count >= 0
    ensures AfterAll(s, times).count >= 0
    decreases |times|
  {
    if times != [] {
      CountNonNegative(After(s, times[0]), times[1..]);
    }
  }

  lemma {:induction false} AdmittedConcat(s: Limiter, a: seq<real>, b: seq<real>)
    ensures Admitted(s, a + b) == Admitted(s, a) + Admitted(AfterAll(s, a), b)
    ensures AfterAll(s, a + b) == AfterAll(AfterAll(s, a), b)
    decreases |a|
  {
    if a == [] {
      assert a + b == b;
    } else {
      assert (a + b)[1..] == a[1..] + b;
      AdmittedConcat(After(s, a[0]), a[1..], b);
    }
  }

  /** Calls that all fall in the current window: the first `Room` of them are admitted, and no others. */
  lemma {:induction false} OneWindow(s: Limiter, times: seq<real>)
    requires s.count >= 0 && forall i :: 0 <= i < |times| ==> !Restarts(s, times[i])
    ensures Admitted(s, times) == Min(|times|, Room(s)) <= THRESHOLD
    ensures AfterAll(s, times) == Limiter(s.count + |times|, s.windowStart)
    decreases |times|
  {
    if times != [] {
      OneWindow(After(s, times[0]), times[1..]);
    }
  }

  /** How many leading calls still fall in the current window. */
  function InWindow(s: Limiter, times: seq<real>): (n: nat)
    ensures n <= |times|
    ensures forall i :: 0 <= i < n ==> !Restarts(s, times[i])
    ensures n < |times| ==> Restarts(s, times[n])
  {
    if times == [] || Restarts(s, times[0]) then 0 else 1 + InWindow(s, times[1..])
  }

  lemma {:induction false} RestartAt(s: Limiter, times: seq<real>, n: nat)
    requires s.count >= 0 && n < |times| && NonDecreasing(times) && times[|times| - 1] - times[0] < WINDOW_SECONDS
    requires (forall i :: 0 <= i < n ==> !Restarts(s, times[i])) && Restarts(s, times[n])
    ensures Admitted(s, times) == Min(n, Room(s)) + Min(|times| - n, THRESHOLD)
  {
    var front, back := times[..n], times[n..];
    assert times == front + back;
    AdmittedConcat(s, front, back);
    OneWindow(s, front);
    SuffixShort(times, n);
    FreshWindow(AfterAll(s, front), back);
  }

  /** Exactly how many calls a stretch shorter than one window admits: what is left of the current window, and one fresh window. */
  lemma {:induction false} AdmittedExactly(s: Limiter, times: seq<real>)
    requires s.count >= 0 && NonDecreasing(times)
    requires times != [] ==> times[|times| - 1] - times[0] < WINDOW_SECONDS
    ensures var n := InWindow(s, times); Admitted(s, times) == Min(n, Room(s)) + Min(|times| - n, THRESHOLD)
  {
    var n := InWindow(s, times);
    if n < |times| {
      RestartAt(s, times, n);
    } else {
      OneWindow(s, times);
    }
  }

  lemma {:induction false} SuffixShort(times: seq<real>, n: nat)
    requires n < |times| && NonDecreasing(times) && times[|times| - 1] - times[0] < WINDOW_SECONDS
    ensures var back := times[n..]; NonDecreasing(back) && back[|back| - 1] - back[0] < WINDOW_SECONDS
  {
    assert times[0] <= times[n];
  }

  lemma {:induction false} FreshWindow(s: Limiter, times: seq<real>)
    requires times != [] && NonDecreasing(times) && Restarts(s, times[0])
    requires times[|times| - 1] - times[0] < WINDOW_SECONDS
    ensures Admitted(s, times) == Min(|times|, THRESHOLD)
  {
    OneWindow(Limiter(1, times[0]), times[1..]);
  }

  /** In every run, calls less than one window apart are admitted at most twice the threshold. */
  lemma {:induction false} AtMostTwiceThreshold(earlier: seq<real>, times: seq<real>)
    requires NonDecreasing(times)
    requires times != [] ==> times[|times| - 1] - times[0] < WINDOW_SECONDS
    ensures Admitted(UNUSED_LIMITER, earlier + times) - Admitted(UNUSED_LIMITER, earlier) <= 2 * THRESHOLD
  {
    CountNonNegative(UNUSED_LIMITER, earlier);
    AdmittedConcat(UNUSED_LIMITER, earlier, times);
    AdmittedExactly(AfterAll(UNUSED_LIMITER, earlier), times);
  }

  /**
  The bound of a sliding window, at most the threshold in any stretch shorter than ten seconds, fails exactly when
  the window restarts within the stretch, some call before the restart is admitted, and those admitted before it
  together with the calls after it exceed the threshold.
  */
  lemma {:induction false} SlidingBoundIff(s: Limiter, times: seq<real>)
    requires s.count >= 0 && NonDecreasing(times)
    requires times != [] ==> times[|times| - 1] - times[0] < WINDOW_SECONDS
    ensures Admitted(s, times) > THRESHOLD <==>
            var n := InWindow(s, times);
            n < |times| && 0 < Min(n, Room(s)) && Min(n, Room(s)) + (|times| - n) > THRESHOLD
  {
    AdmittedExactly(s, times);
  }

  function Repeat(t: real, n: nat): (r: seq<real>)
    ensures |r| == n && forall i :: 0 <= i < n ==> r[i] == t
  {
    if n == 0 then [] else [t] + Repeat(t, n - 1)
  }

  /** The bound of twice the threshold is reached: two hundred calls within one second, none limited. */
  lemma {:induction false} TwiceThresholdIsReached()
    ensures NonDecreasing(Repeat(9.0, THRESHOLD) + Repeat(10.0, THRESHOLD))
    ensures Admitted(UNUSED_LIMITER, Repeat(9.0, THRESHOLD) + Repeat(10.0, THRESHOLD)) == 2 * THRESHOLD
  {
    var times := Repeat(9.0, THRESHOLD) + Repeat(10.0, THRESHOLD);
    assert times[0] == 9.0 && times[|times| - 1] == 10.0;
    assert !Restarts(UNUSED_LIMITER, times[THRESHOLD - 1]) && Restarts(UNUSED_LIMITER, times[THRESHOLD]);
    AdmittedExactly(UNUSED_LIMITER, times);
  }
}
