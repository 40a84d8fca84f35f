/** The API's sliding-window rate limiter (app/src/api/ApiPolicy.cpp): a deque of admission
    instants, against a reference that looks back over the whole history. Instants are
    nanoseconds of a monotonic clock. */
module RateLimiting {

  const WINDOW: int := 1_000_000_000

  predicate Sorted(s: seq<int>) {
    forall i, j :: 0 <= i <= j < |s| ==> s[i] <= s[j]
  }

  /** The instants less than one window before `now`. */
  function Within(s: seq<int>, now: int): (r: seq<int>)
    ensures |r| <= |s|
  {
    if s == [] then []
    else
      var n := |s| - 1;
      Within(s[..n], now) + if now - s[n] < WINDOW then [s[n]] else []
  }

  /** The reference: of all calls so far, a call is admitted when fewer than `max` admissions
      lie less than one window back. */
  function Admitted(max: int, calls: seq<int>): (r: seq<int>)
    ensures |r| <= |calls|
  {
    if calls == [] then []
    else
      var n := |calls| - 1;
      var before := Admitted(max, calls[..n]);
      if max > 0 && |Within(before, calls[n])| < max then before + [calls[n]] else before
  }

  // ------------------------------------------------------------- the reference

  lemma {:induction false} AdmittedSorted(max: int, calls: seq<int>)
    requires Sorted(calls)
    ensures Sorted(Admitted(max, calls))
    ensures forall i :: 0 <= i < |Admitted(max, calls)| ==> Admitted(max, calls)[i] <= calls[|calls| - 1]
    ensures max <= 0 ==> Admitted(max, calls) == []
  {
    if calls != [] {
      var n := |calls| - 1;
      AdmittedSorted(max, calls[..n]);
      var before := Admitted(max, calls[..n]);
      forall i | 0 <= i < |before| ensures before[i] <= calls[n] {
        assert calls[..n][n - 1] == calls[n - 1];
      }
    }
  }

  /** If the k-th instant from the end is in the window, at least k are. */
  lemma {:induction false} WithinAtLeast(s: seq<int>, now: int, k: nat)
    requires Sorted(s) && 0 < k <= |s| && now - s[|s| - k] < WINDOW
    ensures |Within(s, now)| >= k
  {
    var n := |s| - 1;
    assert s[|s| - k] <= s[n];
    if k > 1 {
      assert s[..n][|s[..n]| - (k - 1)] == s[|s| - k];
      WithinAtLeast(s[..n], now, k - 1);
    }
  }

  /** An admission and the one `max` later are at least one window apart. */
  predicate Spaced(s: seq<int>, max: nat) {
    forall i :: 0 <= i && i + max < |s| ==> s[i + max] - s[i] >= WINDOW
  }

  lemma {:induction false} AdmittedSpaced(max: int, calls: seq<int>)
    requires Sorted(calls) && max > 0
    ensures Spaced(Admitted(max, calls), max)
  {
    if calls != [] {
      var n := |calls| - 1;
      AdmittedSpaced(max, calls[..n]);
      AdmittedSorted(max, calls[..n]);
      var before := Admitted(max, calls[..n]);
      var after := Admitted(max, calls);
      forall i | 0 <= i && i + max < |after| ensures after[i + max] - after[i] >= WINDOW {
        if i + max < |before| {
          assert before[i + max] - before[i] >= WINDOW;
        } else if calls[n] - before[i] < WINDOW {
          WithinAtLeast(before, calls[n], |before| - i);
        }
      }
    }
  }

  /** How many instants lie in [from, from + WINDOW). */
  function CountIn(s: seq<int>, from: int): nat {
    if s == [] then 0
    else CountIn(s[..|s| - 1], from) + if from <= s[|s| - 1] < from + WINDOW then 1 else 0
  }

  lemma {:induction false} CountNone(s: seq<int>, from: int)
    requires forall i :: 0 <= i < |s| ==> s[i] < from
    ensures CountIn(s, from) == 0
  {
    if s != [] { CountNone(s[..|s| - 1], from); }
  }

  lemma {:induction false} CountAtMost(s: seq<int>, from: int, max: nat)
    requires Sorted(s) && max > 0 && Spaced(s, max)
    ensures CountIn(s, from) <= max
  {
    if s != [] {
      var n := |s| - 1;
      CountAtMost(s[..n], from, max);
      if from <= s[n] < from + WINDOW {
        CountShort(s, from, max);
      }
    }
  }

  /** With the last instant inside, only the last `max` can be. */
  lemma {:induction false} CountShort(s: seq<int>, from: int, max: nat)
    requires Sorted(s) && max > 0 && Spaced(s, max) && s != [] && s[|s| - 1] < from + WINDOW
    ensures CountIn(s, from) <= max
  {
    if |s| <= max {
      CountLength(s, from);
    } else {
      var cut := |s| - max;
      assert s[(cut - 1) + max] - s[cut - 1] >= WINDOW;
      assert forall i :: 0 <= i < cut ==> s[i] <= s[cut - 1];
      CountSplit(s, from, cut);
      CountNone(s[..cut], from);
      CountLength(s[cut..], from);
    }
  }

  lemma {:induction false} CountLength(s: seq<int>, from: int)
    ensures CountIn(s, from) <= |s|
  {
    if s != [] { CountLength(s[..|s| - 1], from); }
  }

  lemma {:induction false} CountSplit(s: seq<int>, from: int, cut: nat)
    requires cut <= |s|
    ensures CountIn(s, from) == CountIn(s[..cut], from) + CountIn(s[cut..], from)
    decreases |s|
  {
    if cut == |s| {
      assert s[..cut] == s;
    } else {
      var n := |s| - 1;
      CountSplit(s[..n], from, cut);
      assert s[..n][..cut] == s[..cut] && s[..n][cut..] == s[cut..][..n - cut];
    }
  }

  /** Over every non-decreasing sequence of calls, any half-open window of one second holds
      at most `max` admissions, and none when `max` is not positive. */
  lemma {:induction false} WindowBound(max: int, calls: seq<int>, from: int)
    requires Sorted(calls)
    ensures CountIn(Admitted(max, calls), from) <= if max > 0 then max else 0
  {
    AdmittedSorted(max, calls);
    if max > 0 {
      AdmittedSpaced(max, calls);
      CountAtMost(Admitted(max, calls), from, max);
    }
  }

  /** What is within the window of the last instant is what a window ending there counts. */
  lemma {:induction false} WithinCounts(s: seq<int>, now: int)
    requires forall i :: 0 <= i < |s| ==> s[i] <= now
    ensures |Within(s, now)| == CountIn(s, now - WINDOW + 1)
  {
    if s != [] { WithinCounts(s[..|s| - 1], now); }
  }

  // ------------------------------------------------------------------- the deque

  lemma {:induction false} WithinAgain(s: seq<int>, earlier: int, now: int)
    requires earlier <= now
    ensures Within(Within(s, earlier), now) == Within(s, now)
  {
    if s != [] {
      var n := |s| - 1;
      WithinAgain(s[..n], earlier, now);
      var front := Within(s[..n], earlier);
      if earlier - s[n] < WINDOW {
        assert (front + [s[n]])[..|front|] == front;
      } else {
        assert front + [] == front;
      }
    }
  }

  lemma {:induction false} WithinAll(s: seq<int>, now: int)
    requires forall i :: 0 <= i < |s| ==> now - s[i] < WINDOW
    ensures Within(s, now) == s
  {
    if s != [] {
      WithinAll(s[..|s| - 1], now);
      assert s == s[..|s| - 1] + [s[|s| - 1]];
    }
  }

  lemma {:induction false} WithinPop(s: seq<int>, now: int)
    requires s != [] && now - s[0] >= WINDOW
    ensures Within(s[1..], now) == Within(s, now)
  {
    if |s| == 1 {
      assert s[..0] == [] && s[1..] == [];
    } else {
      var n := |s| - 1;
      WithinPop(s[..n], now);
      assert s[..n][1..] == s[1..][..n - 1];
    }
  }

  lemma {:induction false} WithinPush(s: seq<int>, now: int)
    ensures Within(s + [now], now) == Within(s, now) + [now]
  {
    assert (s + [now])[..|s|] == s;
  }

  lemma {:induction false} WithinSorted(s: seq<int>, now: int)
    requires Sorted(s)
    ensures Sorted(Within(s, now)) && forall i :: 0 <= i < |Within(s, now)| ==> Within(s, now)[i] in s
  {
    if s != [] {
      var n := |s| - 1;
      WithinSorted(s[..n], now);
    }
  }

  /** The deque holds exactly the admissions still inside the window at the last call. */
  ghost predicate Holds(max: int, calls: seq<int>, deque: seq<int>) {
    Sorted(calls) &&
    deque == if calls == [] then [] else Within(Admitted(max, calls), calls[|calls| - 1])
  }

  class RateLimiter {
    var admissions: seq<int>
    const maxPerSecond: int
    ghost var calls: seq<int>

    ghost predicate Valid()
      reads this
    {
      Holds(maxPerSecond, calls, admissions)
    }

    constructor (maxPerSecond: int)
      ensures Valid() && this.maxPerSecond == maxPerSecond && calls == []
    {
      this.maxPerSecond, admissions, calls := maxPerSecond, [], [];
    }

    /** The loop that pops what has left the window. */
    method Expire(now: int)
      requires Sorted(admissions)
      modifies this`admissions
      ensures admissions == Within(old(admissions), now)
    {
      while admissions != [] && now - admissions[0] >= WINDOW
        invariant Within(admissions, now) == Within(old(admissions), now) && Sorted(admissions)
        decreases |admissions|
      {
        WithinPop(admissions, now);
        admissions := admissions[1..];
      }
      WithinAll(admissions, now);
    }

    /** `admit`: refuses only when the limit's worth of admissions lies less than a second
        back, or nothing is ever admitted. Instants are in nanoseconds. */
    method Admit(now: int) returns (ok: bool)
      requires Valid() && (calls != [] ==> calls[|calls| - 1] <= now)
      modifies this
      ensures Valid() && calls == old(calls) + [now]
      ensures ok <==> maxPerSecond > 0 &&
                      CountIn(Admitted(maxPerSecond, old(calls)), now - 999_999_999) < maxPerSecond
      ensures Admitted(maxPerSecond, calls) == Admitted(maxPerSecond, old(calls)) + if ok then [now] else []
    {
      ghost var later, kept := NextCall(maxPerSecond, calls, now, admissions);
      calls := later;
      if maxPerSecond <= 0 {
        return false;
      }
      Expire(now);
      if |admissions| >= maxPerSecond {
        return false;
      }
      admissions := admissions + [now];
      return true;
    }
  }

  /** What one more call does to the reference, seen from the deque. */
  lemma {:induction false} NextCall(max: int, calls: seq<int>, now: int, deque: seq<int>)
    returns (later: seq<int>, kept: seq<int>)
    requires Holds(max, calls, deque) && (calls != [] ==> calls[|calls| - 1] <= now)
    ensures later == calls + [now] && kept == Within(Admitted(max, calls), now)
    ensures |kept| == CountIn(Admitted(max, calls), now - 999_999_999)
    ensures Sorted(deque) && Within(deque, now) == kept && (max <= 0 ==> deque == [] && kept == [])
    ensures if max > 0 && |kept| < max
            then Admitted(max, later) == Admitted(max, calls) + [now] && Holds(max, later, kept + [now])
            else Admitted(max, later) == Admitted(max, calls) + [] && Holds(max, later, kept)
  {
    later, kept := calls + [now], Within(Admitted(max, calls), now);
    SortedSnoc(calls, now);
    AdmittedNext(max, calls, now);
    KeptCounts(max, calls, now);
    WithinPush(Admitted(max, calls), now);
    DequeNext(max, calls, now, deque);
    assert later[|later| - 1] == now;
  }

  lemma {:induction false} KeptCounts(max: int, calls: seq<int>, now: int)
    requires Sorted(calls) && (calls != [] ==> calls[|calls| - 1] <= now)
    ensures |Within(Admitted(max, calls), now)| == CountIn(Admitted(max, calls), now - 999_999_999)
  {
    AdmittedSorted(max, calls);
    WithinCounts(Admitted(max, calls), now);
  }

  lemma {:induction false} AdmittedNext(max: int, calls: seq<int>, now: int)
    ensures var before := Admitted(max, calls);
            Admitted(max, calls + [now]) == before + if max > 0 && |Within(before, now)| < max then [now] else []
  {
    assert (calls + [now])[..|calls|] == calls;
  }

  lemma {:induction false} DequeNext(max: int, calls: seq<int>, now: int, deque: seq<int>)
    requires Holds(max, calls, deque) && (calls != [] ==> calls[|calls| - 1] <= now)
    ensures Sorted(deque) && Within(deque, now) == Within(Admitted(max, calls), now)
    ensures max <= 0 ==> deque == [] && Admitted(max, calls) == []
  {
    var before := Admitted(max, calls);
    AdmittedSorted(max, calls);
    if calls != [] {
      WithinAgain(before, calls[|calls| - 1], now);
      WithinSorted(before, calls[|calls| - 1]);
    }
  }

  lemma {:induction false} SortedSnoc(s: seq<int>, x: int)
    requires Sorted(s) && (s != [] ==> s[|s| - 1] <= x)
    ensures Sorted(s + [x])
  {
    forall i | 0 <= i < |s| ensures s[i] <= x {
      assert s[i] <= s[|s| - 1];
    }
  }
}
