/**
 The sliding-window limiter of an endpoint (pkg/sippyserver/server.go:207-250).

 Times are integers. `history` records every admission since the limiter was made; the limiter
 itself only keeps the ones inside the window.
 */
module RateLimit {

  /** The entries after the cutoff, in order. */
  function After(times: seq<int>, cutoff: int): seq<int> {
    if times == [] then []
    else
      var rest := After(times[..|times| - 1], cutoff);
      if times[|times| - 1] > cutoff then rest + [times[|times| - 1]] else rest
  }

  /** The entries in the half-open window `(from, to]`. */
  function Window(times: seq<int>, from: int, to: int): seq<int> {
    if times == [] then []
    else
      var rest := Window(times[..|times| - 1], from, to);
      if from < times[|times| - 1] <= to then rest + [times[|times| - 1]] else rest
  }

  ghost predicate Sorted(times: seq<int>) {
    forall i, j :: 0 <= i < j < |times| ==> times[i] <= times[j]
  }

  /** Any `max + 1` consecutive admissions span at least one period. */
  ghost predicate Spaced(times: seq<int>, max: int, period: int) {
    forall i, j :: 0 <= i <= j < |times| && j - i >= max ==> times[j] - times[i] >= period
  }

  lemma AfterAppend(times: seq<int>, t: int, cutoff: int)
    ensures After(times + [t], cutoff) == if t > cutoff then After(times, cutoff) + [t] else After(times, cutoff)
  {
    assert (times + [t])[..|times|] == times;
  }

  /** Pruning twice with a later cutoff is pruning the whole history. */
  lemma {:induction false} AfterTwice(times: seq<int>, earlier: int, later: int)
    requires earlier <= later
    ensures After(After(times, earlier), later) == After(times, later)
  {
    if times != [] {
      var init, last := times[..|times| - 1], times[|times| - 1];
      AfterTwice(init, earlier, later);
      AfterAppend(After(init, earlier), last, later);
    }
  }

  /** On a sorted history the entries after the cutoff are a suffix. */
  lemma {:induction false} AfterIsSuffix(times: seq<int>, cutoff: int) returns (p: nat)
    requires Sorted(times)
    ensures p <= |times| && After(times, cutoff) == times[p..]
    ensures forall i :: 0 <= i < p ==> times[i] <= cutoff
  {
    if times == [] {
      p := 0;
    } else {
      var init, last := times[..|times| - 1], times[|times| - 1];
      p := AfterIsSuffix(init, cutoff);
      assert times == init + [last];
      assert forall i :: 0 <= i < |times| ==> times[i] <= last;
      if last <= cutoff {
        NoneAfter(init, cutoff);
        p := |times|;
      }
    }
  }

  lemma {:induction false} NoneAfter(times: seq<int>, cutoff: int)
    requires forall i :: 0 <= i < |times| ==> times[i] <= cutoff
    ensures After(times, cutoff) == []
  {
    if times != [] {
      NoneAfter(times[..|times| - 1], cutoff);
    }
  }

  /** A window of a sorted history is a run of consecutive entries. */
  lemma {:induction false} WindowIsRun(times: seq<int>, from: int, to: int) returns (lo: nat, hi: nat)
    requires Sorted(times)
    ensures lo <= hi <= |times| && |Window(times, from, to)| == hi - lo
    ensures lo < hi ==> from < times[lo] && times[hi - 1] <= to
    ensures lo < hi < |times| ==> times[hi] > to
  {
    if times == [] {
      lo, hi := 0, 0;
    } else {
      var n := |times| - 1;
      lo, hi := WindowIsRun(times[..n], from, to);
      assert hi < n ==> times[hi] <= times[n];
      if from < times[n] <= to {
        lo, hi := if lo == hi then n else lo, n + 1;
      }
    }
  }

  /** The window of one period after `from` holds no more than the maximum. */
  ghost predicate WithinLimit(times: seq<int>, max: int, period: int, from: int) {
    |Window(times, from, from + period)| <= if max < 0 then 0 else max
  }

  /** Spaced admissions never fill a window of one period beyond the maximum. */
  lemma WindowBounded(times: seq<int>, max: int, period: int, from: int)
    requires Sorted(times) && Spaced(times, max, period)
    ensures WithinLimit(times, max, period, from)
  {
    var lo, hi := WindowIsRun(times, from, from + period);
    if lo < hi {
      assert times[hi - 1] - times[lo] < period;
    }
  }

  lemma AdmissionStaysSpaced(times: seq<int>, now: int, max: int, period: int)
    requires Sorted(times) && Spaced(times, max, period) && period > 0
    requires forall i :: 0 <= i < |times| ==> times[i] <= now
    requires |After(times, now - period)| < max
    ensures Sorted(times + [now]) && Spaced(times + [now], max, period)
    ensures After(times + [now], now - period) == After(times, now - period) + [now]
  {
    var p := AfterIsSuffix(times, now - period);
    AfterAppend(times, now, now - period);
  }

  class RateLimiter {
    var requestTimes: seq<int>
    const maxRequests: int
    const period: int
    ghost var history: seq<int>
    ghost var clock: int

    ghost predicate Valid()
      reads this
    {
      && Sorted(history)
      && (forall i :: 0 <= i < |history| ==> history[i] <= clock)
      && requestTimes == After(history, clock - period)
      && Spaced(history, maxRequests, period)
    }

    constructor (maxRequests: int, period: int, ghost now: int)
      ensures Valid() && history == [] && clock == now
      ensures this.maxRequests == maxRequests && this.period == period
    {
      this.maxRequests, this.period := maxRequests, period;
      requestTimes, history, clock := [], [], now;
    }

    /** The recorded times after the cutoff. */
    method Unexpired(cutoff: int) returns (validTimes: seq<int>)
      ensures validTimes == After(requestTimes, cutoff)
    {
      validTimes := [];
      for i := 0 to |requestTimes|
        invariant validTimes == After(requestTimes[..i], cutoff)
      {
        assert requestTimes[..i + 1] == requestTimes[..i] + [requestTimes[i]];
        AfterAppend(requestTimes[..i], requestTimes[i], cutoff);
        if requestTimes[i] > cutoff {
          validTimes := validTimes + [requestTimes[i]];
        }
      }
      assert requestTimes[..|requestTimes|] == requestTimes;
    }

    /** Admits the request exactly when fewer than the maximum were admitted in the last period. */
    method Allow(now: int) returns (ok: bool)
      requires Valid() && clock <= now && period > 0
      modifies this
      ensures Valid() && clock == now
      ensures ok <==> |Window(old(history), now - period, now)| < maxRequests
      ensures history == if ok then old(history) + [now] else old(history)
    {
      hide After, Window, Sorted, Spaced;
      PruneAgain(history, clock, now, period);
      var cutoff := now - period;
      requestTimes := Unexpired(cutoff);
      clock := now;
      if |requestTimes| >= maxRequests {
        return false;
      }
      AdmissionStaysSpaced(history, now, maxRequests, period);
      requestTimes := requestTimes + [now];
      history := history + [now];
      return true;
    }
  }

  lemma {:induction false} AfterIsWindow(times: seq<int>, cutoff: int, now: int)
    requires forall i :: 0 <= i < |times| ==> times[i] <= now
    ensures After(times, cutoff) == Window(times, cutoff, now)
  {
    if times != [] {
      AfterIsWindow(times[..|times| - 1], cutoff, now);
    }
  }

  lemma PruneAgain(history: seq<int>, clock: int, now: int, period: int)
    requires clock <= now && forall i :: 0 <= i < |history| ==> history[i] <= clock
    ensures After(After(history, clock - period), now - period) == After(history, now - period)
    ensures After(history, now - period) == Window(history, now - period, now)
  {
    AfterTwice(history, clock - period, now - period);
    AfterIsWindow(history, now - period, now);
  }
}
