/**
 * The sliding-window request throttle (appweb.py lines 29-40): a sequence of the
 * times at which generation requests were admitted, pruned to the trailing
 * 60 seconds on every check. Time is a parameter in whole seconds and is not
 * assumed to be monotonic.
 */
module RateLimit {

  const MaxRequestsPerMinute: nat := 10
  const WindowSeconds: int := 60

  /** An admitted request still counts at time `now` (the test `now - ts < 60`). */
  predicate IsRecent(ts: int, now: int)
  {
    now - ts < WindowSeconds
  }

  /** The entries of `window` that still count at `now`, in their original order. */
  function Recent(window: seq<int>, now: int): (r: seq<int>)
    ensures |r| <= |window|
    ensures forall i :: 0 <= i < |r| ==> IsRecent(r[i], now)
  {
    if window == [] then []
    else (if IsRecent(window[0], now) then [window[0]] else []) + Recent(window[1..], now)
  }

  /** An entry survives pruning exactly when it was in the window and still counts. */
  lemma {:induction false} RecentMembers(window: seq<int>, now: int, t: int)
    ensures t in Recent(window, now) <==> t in window && IsRecent(t, now)
  {
    if window != [] {
      RecentMembers(window[1..], now, t);
      assert window == [window[0]] + window[1..];
    }
  }

  /** Pruning distributes over concatenation: it never reorders entries. */
  lemma {:induction false} RecentConcat(a: seq<int>, b: seq<int>, now: int)
    ensures Recent(a + b, now) == Recent(a, now) + Recent(b, now)
  {
    if a == [] {
      assert a + b == b;
    } else {
      assert (a + b)[1..] == a[1..] + b;
      RecentConcat(a[1..], b, now);
    }
  }

  /** Pruning a window whose entries all count keeps it whole. */
  lemma {:induction false} RecentKeepsAllRecent(window: seq<int>, now: int)
    requires forall i :: 0 <= i < |window| ==> IsRecent(window[i], now)
    ensures Recent(window, now) == window
  {
    if window != [] {
      RecentKeepsAllRecent(window[1..], now);
    }
  }

  /** The indices, from `from` on, of the entries of `window` that count at `now`. */
  function KeptIndices(window: seq<int>, now: int, from: nat): seq<nat>
    requires from <= |window|
    decreases |window| - from
  {
    if from == |window| then []
    else (if IsRecent(window[from], now) then [from] else []) + KeptIndices(window, now, from + 1)
  }

  /**
   * Pruning is a filter: its result lists, in increasing index order, exactly the
   * entries of `window[from..]` that count at `now`.
   */
  lemma {:induction false} RecentIsFilter(window: seq<int>, now: int, from: nat)
    requires from <= |window|
    decreases |window| - from
    ensures var idx, r := KeptIndices(window, now, from), Recent(window[from..], now);
      && |idx| == |r|
      && (forall k :: 0 <= k < |idx| ==> from <= idx[k] < |window| && r[k] == window[idx[k]])
      && (forall k, l :: 0 <= k < l < |idx| ==> idx[k] < idx[l])
      && (forall i :: from <= i < |window| ==> (i in idx <==> IsRecent(window[i], now)))
  {
    if from < |window| {
      RecentIsFilter(window, now, from + 1);
      assert window[from..][1..] == window[from + 1..];
    }
  }

  /** Pruning the whole window keeps exactly the recent entries, in order. */
  lemma RecentKeepsOrder(window: seq<int>, now: int)
    ensures var idx, r := KeptIndices(window, now, 0), Recent(window, now);
      && |idx| == |r|
      && (forall k :: 0 <= k < |idx| ==> idx[k] < |window| && r[k] == window[idx[k]])
      && (forall k, l :: 0 <= k < l < |idx| ==> idx[k] < idx[l])
      && (forall i :: 0 <= i < |window| ==> (i in idx <==> IsRecent(window[i], now)))
  {
    RecentIsFilter(window, now, 0);
    assert window[0..] == window;
  }

  /** What one throttle check decides, and the window it leaves behind. */
  datatype Verdict = Verdict(throttled: bool, window: seq<int>)

  /**
   * One throttle check at `now`: prune, then reject when the pruned window is full,
   * otherwise record `now` as the newest entry.
   */
  function Step(window: seq<int>, now: int): (v: Verdict)
    ensures v.throttled <==> |Recent(window, now)| >= MaxRequestsPerMinute
    ensures v.throttled ==> v.window == Recent(window, now) && |v.window| <= |window|
    ensures !v.throttled ==> 0 < |v.window| <= MaxRequestsPerMinute && v.window[|v.window| - 1] == now
                             && v.window[..|v.window| - 1] == Recent(window, now)
    ensures |window| <= MaxRequestsPerMinute ==> |v.window| <= MaxRequestsPerMinute
    ensures forall i :: 0 <= i < |v.window| ==> IsRecent(v.window[i], now)
  {
    var kept := Recent(window, now);
    if |kept| >= MaxRequestsPerMinute then Verdict(true, kept)
    else Verdict(false, kept + [now])
  }

  /** The list comprehension of appweb.py line 36, entry by entry. */
  method Prune(window: seq<int>, now: int) returns (kept: seq<int>)
    ensures kept == Recent(window, now)
  {
    kept := [];
    var i := 0;
    while i < |window|
      invariant 0 <= i <= |window|
      invariant kept == Recent(window[..i], now)
    {
      assert window[..i + 1] == window[..i] + [window[i]];
      RecentConcat(window[..i], [window[i]], now);
      if IsRecent(window[i], now) {
        kept := kept + [window[i]];
      }
      i := i + 1;
    }
    assert window[..i] == window;
  }

  /** The process-wide `request_timestamps` list and the check that updates it. */
  class RequestThrottle {
    var timestamps: seq<int>

    /** The window never holds more entries than the per-minute ceiling. */
    ghost predicate Valid()
      reads this
    {
      |timestamps| <= MaxRequestsPerMinute
    }

    constructor ()
      ensures Valid() && timestamps == []
    {
      timestamps := [];
    }

    /** `throttle_requests`: true when the request must be rejected. */
    method ThrottleRequests(now: int) returns (throttled: bool)
      requires Valid()
      modifies this
      ensures Valid()
      ensures Verdict(throttled, timestamps) == Step(old(timestamps), now)
      ensures throttled <==> |Recent(old(timestamps), now)| >= MaxRequestsPerMinute
      ensures throttled ==> timestamps == Recent(old(timestamps), now)
      ensures !throttled ==> timestamps == Recent(old(timestamps), now) + [now]
    {
      timestamps := Prune(timestamps, now);
      if |timestamps| >= MaxRequestsPerMinute {
        return true;
      }
      timestamps := timestamps + [now];
      return false;
    }
  }

  /** The decisions of a sequence of checks at `times`, and the final window. */
  datatype Trace = Trace(decisions: seq<bool>, window: seq<int>)

  function Run(window: seq<int>, times: seq<int>): (t: Trace)
    decreases |times|
    ensures |t.decisions| == |times|
  {
    if times == [] then Trace([], window)
    else
      var v := Step(window, times[0]);
      var rest := Run(v.window, times[1..]);
      Trace([v.throttled] + rest.decisions, rest.window)
  }

  /** How many of the checks admitted their request. */
  function Admitted(decisions: seq<bool>): nat
  {
    if decisions == [] then 0
    else (if decisions[0] then 0 else 1) + Admitted(decisions[1..])
  }

  /** All `times` fall in the 60-second span starting at `lo`. */
  predicate WithinSpan(times: seq<int>, lo: int)
  {
    forall i :: 0 <= i < |times| ==> lo <= times[i] < lo + WindowSeconds
  }

  lemma SpanEntriesRecent(window: seq<int>, lo: int, now: int)
    requires WithinSpan(window, lo) && lo <= now < lo + WindowSeconds
    ensures Recent(window, now) == window
  {
    RecentKeepsAllRecent(window, now);
  }

  /**
   * Within one 60-second span, starting from a window whose entries lie in the same
   * span, the checks admit until the window holds the ceiling and reject from then on.
   */
  lemma {:induction false} BurstWithinSpan(window: seq<int>, times: seq<int>, lo: int)
    requires |window| <= MaxRequestsPerMinute
    requires WithinSpan(window, lo) && WithinSpan(times, lo)
    decreases |times|
    ensures forall i :: 0 <= i < |times| ==>
              Run(window, times).decisions[i] == (|window| + i >= MaxRequestsPerMinute)
  {
    if times != [] {
      var now := times[0];
      SpanEntriesRecent(window, lo, now);
      var v := Step(window, now);
      assert WithinSpan(v.window, lo);
      BurstWithinSpan(v.window, times[1..], lo);
      var rest := Run(v.window, times[1..]);
      assert Run(window, times).decisions == [v.throttled] + rest.decisions;
      forall i | 1 <= i < |times|
        ensures Run(window, times).decisions[i] == (|window| + i >= MaxRequestsPerMinute)
      {
        assert rest.decisions[i - 1] == (|v.window| + i - 1 >= MaxRequestsPerMinute);
      }
    }
  }

  /**
   * From an empty window, of any calls made within one 60-second span the first ten
   * are admitted and every later one is rejected.
   */
  lemma BurstFromEmpty(times: seq<int>, lo: int)
    requires WithinSpan(times, lo)
    ensures forall i :: 0 <= i < |times| ==> Run([], times).decisions[i] == (i >= MaxRequestsPerMinute)
  {
    BurstWithinSpan([], times, lo);
  }

  /**
   * The entries of `suffix`, the tail of the window that lies in the span, survive
   * every check made in the span, so together with the requests admitted they never
   * exceed the ceiling.
   */
  lemma {:induction false} AdmittedBound(window: seq<int>, suffix: seq<int>, times: seq<int>, lo: int)
    requires |window| <= MaxRequestsPerMinute
    requires EndsIn(window, suffix)
    requires WithinSpan(suffix, lo) && WithinSpan(times, lo)
    decreases |times|
    ensures |suffix| + Admitted(Run(window, times).decisions) <= MaxRequestsPerMinute
  {
    if times != [] {
      var now, later := times[0], times[1..];
      var v := Step(window, now);
      var suffix' := StepKeepsSpanTail(window, suffix, now, lo);
      AdmittedRun(window, times);
      assert WithinSpan(later, lo);
      AdmittedBound(v.window, suffix', later, lo);
    }
  }

  /** The first check of a run admits or not, and the rest of the run continues from its window. */
  lemma AdmittedRun(window: seq<int>, times: seq<int>)
    requires times != []
    ensures var v := Step(window, times[0]);
      Admitted(Run(window, times).decisions)
        == (if v.throttled then 0 else 1) + Admitted(Run(v.window, times[1..]).decisions)
  {
    var v := Step(window, times[0]);
    var rest := Run(v.window, times[1..]);
    AdmittedCons(v.throttled, rest.decisions);
  }

  /** `tail` is the last part of `s`. */
  predicate EndsIn(s: seq<int>, tail: seq<int>)
  {
    |tail| <= |s| && s[|s| - |tail|..] == tail
  }

  /**
   * A check in the span keeps the in-span tail of the window and, when it admits,
   * extends that tail by the time of the check.
   */
  lemma StepKeepsSpanTail(window: seq<int>, suffix: seq<int>, now: int, lo: int)
    returns (suffix': seq<int>)
    requires |window| <= MaxRequestsPerMinute && EndsIn(window, suffix)
    requires WithinSpan(suffix, lo) && lo <= now < lo + WindowSeconds
    ensures var v := Step(window, now);
      && |v.window| <= MaxRequestsPerMinute
      && EndsIn(v.window, suffix') && WithinSpan(suffix', lo)
      && |suffix'| == |suffix| + (if v.throttled then 0 else 1)
  {
    var older := window[..|window| - |suffix|];
    assert window == older + suffix;
    RecentConcat(older, suffix, now);
    SpanEntriesRecent(suffix, lo, now);
    var kept := Recent(older, now) + suffix;
    assert Recent(window, now) == kept;
    if |kept| >= MaxRequestsPerMinute {
      suffix' := suffix;
      assert kept[|kept| - |suffix|..] == suffix;
    } else {
      suffix' := suffix + [now];
      assert kept + [now] == Recent(older, now) + suffix';
      assert (kept + [now])[|kept + [now]| - |suffix'|..] == suffix';
    }
  }

  lemma AdmittedCons(d: bool, decisions: seq<bool>)
    ensures Admitted([d] + decisions) == (if d then 0 else 1) + Admitted(decisions)
  {
    assert ([d] + decisions)[1..] == decisions;
  }

  /**
   * The limiter's guarantee: whatever a valid window holds, a run of consecutive calls
   * all stamped within one 60-second span admits at most ten of them. A call stamped
   * outside the span in between can let more through (`ClockStepBackAdmitsMore`).
   */
  lemma AtMostMaxPerSpan(window: seq<int>, times: seq<int>, lo: int)
    requires |window| <= MaxRequestsPerMinute
    requires WithinSpan(times, lo)
    ensures Admitted(Run(window, times).decisions) <= MaxRequestsPerMinute
  {
    AdmittedBound(window, [], times, lo);
  }

  /**
   * The span bound needs every call of the run stamped inside the span: a full window
   * of entries at 0 is cleared by a call stamped 1000, and a call stamped 1 is then
   * admitted, an eleventh admission stamped within [0, 60).
   */
  lemma ClockStepBackAdmitsMore()
    ensures var full := seq(MaxRequestsPerMinute, _ => 0);
      && WithinSpan(full, 0) && WithinSpan([1], 0)
      && Run(full, [1000, 1]).decisions == [false, false]
  {
    var full := seq(MaxRequestsPerMinute, _ => 0);
    var v := Step(full, 1000);
    assert Recent(full, 1000) == [] by {
      RecentAllOld(full, 1000);
    }
    assert v.window == [1000];
    assert Recent([1000], 1) == [1000];
    assert [1000, 1][1..] == [1];
  }

  /** Pruning a window whose entries are all too old empties it. */
  lemma {:induction false} RecentAllOld(window: seq<int>, now: int)
    requires forall i :: 0 <= i < |window| ==> !IsRecent(window[i], now)
    ensures Recent(window, now) == []
  {
    if window != [] {
      RecentAllOld(window[1..], now);
    }
  }
}
