/**
 Payload streaks and blocker scores (pkg/api/releases.go:118-142, pkg/api/releases.go:194-239).
 The percentage is any truncated quotient that keeps the order and the ends of the scale, as the
 program's floating-point one does and the exact one, too.
 */
module PayloadStreak {
  import opened Common

  datatype Payload = Payload(tag: string, phase: string)

  const Rejected := "Rejected"

  function Tags(payloads: seq<Payload>): (tags: seq<string>)
    ensures |tags| == |payloads|
  {
    seq(|payloads|, i requires 0 <= i < |payloads| => payloads[i].tag)
  }

  /** `n` is the length of the longest prefix in one phase. */
  ghost predicate LongestPrefix(payloads: seq<Payload>, phase: string, n: nat) {
    && n <= |payloads|
    && (forall i :: 0 <= i < n ==> payloads[i].phase == phase)
    && (n < |payloads| ==> payloads[n].phase != phase)
  }

  /** The part of `PayloadStreamAnalysis` that the streak loop fills in. */
  class StreamAnalysis {
    var lastPhase: string
    var lastPhaseCount: nat
    var consecutiveFailedPayloads: seq<string>

    constructor ()
      ensures lastPhaseCount == 0 && consecutiveFailedPayloads == []
    {
      lastPhase, lastPhaseCount, consecutiveFailedPayloads := "", 0, [];
    }

    /** The loop over the latest payloads, newest first. */
    method FindStreak(lastPayloads: seq<Payload>) returns (onlyFailedPayloads: seq<Payload>)
      requires lastPhaseCount == 0 && consecutiveFailedPayloads == []
      modifies this
      ensures lastPayloads == [] ==> lastPhase == old(lastPhase)
      ensures lastPayloads != [] ==> lastPhase == lastPayloads[0].phase
      ensures LongestPrefix(lastPayloads, lastPhase, lastPhaseCount)
      ensures exists n: nat ::
                LongestPrefix(lastPayloads, "Rejected", n) && consecutiveFailedPayloads == Tags(lastPayloads[..n])
      ensures onlyFailedPayloads == WithPhase(lastPayloads, "Rejected")
    {
      onlyFailedPayloads := [];
      if |lastPayloads| == 0 {
        assert LongestPrefix(lastPayloads, Rejected, 0) && Tags(lastPayloads[..0]) == [];
        return;
      }
      lastPhase := lastPayloads[0].phase;
      var count := 0;
      for i := 0 to |lastPayloads|
        invariant lastPhase == lastPayloads[0].phase
        invariant onlyFailedPayloads == WithPhase(lastPayloads[..i], Rejected)
        invariant lastPhaseCount == 0 ==> count == i && i < |lastPayloads|
        invariant lastPhaseCount == 0 ==> forall j :: 0 <= j < i ==> lastPayloads[j].phase == lastPhase
        invariant lastPhaseCount > 0 ==> LongestPrefix(lastPayloads, lastPhase, lastPhaseCount) && lastPhaseCount <= i
        invariant i > 0 || lastPhaseCount == 0
        invariant consecutiveFailedPayloads ==
                  if lastPhase != Rejected then []
                  else Tags(lastPayloads[..if lastPhaseCount == 0 then i else lastPhaseCount])
      {
        var p := lastPayloads[i];
        assert lastPayloads[..i + 1][..i] == lastPayloads[..i];
        if p.phase == Rejected {
          onlyFailedPayloads := onlyFailedPayloads + [p];
        }
        if lastPhaseCount == 0 {
          if p.phase == lastPhase {
            count := count + 1;
          }
          if p.phase != lastPhase || i == |lastPayloads| - 1 {
            lastPhaseCount := count;
          }
          if lastPhase == Rejected && p.phase == Rejected {
            consecutiveFailedPayloads := consecutiveFailedPayloads + [p.tag];
          }
        }
      }
      assert lastPayloads[..|lastPayloads|] == lastPayloads;
      if lastPhase == Rejected {
        assert LongestPrefix(lastPayloads, Rejected, lastPhaseCount);
      } else {
        assert LongestPrefix(lastPayloads, Rejected, 0) && Tags(lastPayloads[..0]) == [];
      }
    }
  }

  function WithPhase(payloads: seq<Payload>, phase: string): seq<Payload> {
    if payloads == [] then []
    else
      var rest := WithPhase(payloads[..|payloads| - 1], phase);
      if payloads[|payloads| - 1].phase == phase then rest + [payloads[|payloads| - 1]] else rest
  }

  /** The payloads in the phase and no others, in their order. */
  lemma {:induction false} WithPhaseConcat(a: seq<Payload>, b: seq<Payload>, phase: string)
    ensures WithPhase(a + b, phase) == WithPhase(a, phase) + WithPhase(b, phase)
    ensures forall p: Payload :: WithPhase([p], phase) == if p.phase == phase then [p] else []
  {
    forall p: Payload ensures WithPhase([p], phase) == if p.phase == phase then [p] else [] {
      assert [p][..0] == [];
    }
    if b == [] {
      assert a + b == a;
    } else {
      assert (a + b)[..|a + b| - 1] == a + b[..|b| - 1];
      WithPhaseConcat(a, b[..|b| - 1], phase);
    }
  }

  // ---------------------------------------------------------------------------------------
  // Blocker score

  /** How many of the most recent payloads of the streak the test failed in without a gap. */
  function Leading(tags: seq<string>, failed: set<string>): (n: nat)
    ensures n <= |tags|
    ensures forall i :: 0 <= i < n ==> tags[i] in failed
    ensures n < |tags| ==> tags[n] !in failed
  {
    if tags == [] || tags[0] !in failed then 0 else 1 + Leading(tags[1..], failed)
  }

  function CountFailed(tags: seq<string>, failed: set<string>): (n: nat)
    ensures n <= |tags|
  {
    if tags == [] then 0 else CountFailed(tags[..|tags| - 1], failed) + if tags[|tags| - 1] in failed then 1 else 0
  }

  /** `int(float64(k) / float64(n) * 100)`: how many percent `k` is of `n`. */
  type Percent = (nat, nat) -> int

  /** Rounding may lose a percent on the way, but not the order, and only the whole is 100. */
  ghost predicate KeepsScale(percent: Percent) {
    && (forall k, n :: 0 <= k <= n && n > 0 ==> 0 <= percent(k, n) <= 100 && (percent(k, n) == 100 <==> k == n))
    && (forall k, l, n :: 0 <= k <= l <= n && n > 0 ==> percent(k, n) <= percent(l, n))
  }

  function ExactPercent(k: nat, n: nat): int {
    if n == 0 then 0 else 100 * k / n
  }

  /** The exact quotient is one of them. */
  lemma ExactKeepsScale()
    ensures KeepsScale(ExactPercent)
  {
    forall k, n | 0 <= k <= n && n > 0
      ensures 0 <= ExactPercent(k, n) <= 100 && (ExactPercent(k, n) == 100 <==> k == n)
    {
      ExactBounds(k, n);
    }
    forall k, l, n | 0 <= k <= l <= n && n > 0 ensures ExactPercent(k, n) <= ExactPercent(l, n) {
      DivMonotone(100 * k, 100 * l, n);
    }
  }

  lemma ExactBounds(k: nat, n: nat)
    requires k <= n && n > 0
    ensures 0 <= ExactPercent(k, n) <= 100 && (ExactPercent(k, n) == 100 <==> k == n)
  {
    DivMonotone(100 * k, 100 * n, n);
    assert (100 * n) / n == 100 by { ExactQuotient(100, n); }
    if k < n {
      assert 100 * k < 100 * n;
      assert (100 * k / n) * n <= 100 * k;
    }
  }

  function Score(tags: seq<string>, failed: set<string>, percent: Percent): int {
    if tags == [] then 0
    else
      var base, share := Min(25 * Leading(tags, failed), 100), percent(CountFailed(tags, failed), |tags|);
      if base >= 50 && share >= base then share else base
  }

  /** The positions of the payloads that the test failed in. */
  function FailedAt(tags: seq<string>, failed: set<string>): set<nat> {
    set i: nat | i < |tags| && tags[i] in failed
  }

  lemma {:induction false} CountFailedIsSize(tags: seq<string>, failed: set<string>)
    ensures CountFailed(tags, failed) == |FailedAt(tags, failed)|
  {
    if tags != [] {
      var init, last := tags[..|tags| - 1], |tags| - 1;
      CountFailedIsSize(init, failed);
      assert FailedAt(tags, failed) == FailedAt(init, failed) + if tags[last] in failed then {last} else {};
    }
  }

  /**
   Up to one failure at the head of the streak the score is a quarter for each; from two on it is the greater of
   that and the share of the streak that failed.
   */
  lemma ScoreIsMax(tags: seq<string>, failed: set<string>, percent: Percent)
    ensures var quarters, share := 25 * Leading(tags, failed), percent(|FailedAt(tags, failed)|, |tags|);
            var capped := if quarters < 100 then quarters else 100;
            Score(tags, failed, percent) ==
            if quarters < 50 then quarters else if share > capped then share else capped
  {
    CountFailedIsSize(tags, failed);
  }

  class TestFailureAnalysis {
    const failedPayloads: set<string>
    var blockerScore: int
    var reasons: seq<string>

    constructor (failedPayloads: set<string>)
      ensures this.failedPayloads == failedPayloads && reasons == []
    {
      this.failedPayloads, blockerScore, reasons := failedPayloads, 0, [];
    }

    /** `calculateBlockerScore`. */
    method CalculateBlockerScore(tags: seq<string>, percent: Percent)
      modifies this
      ensures blockerScore == Score(tags, failedPayloads, percent)
      ensures |reasons| == |old(reasons)| + if tags == [] then 1 else 2
    {
      if |tags| == 0 {
        blockerScore := 0;
        reasons := reasons + ["most recent payload was not Rejected"];
        return;
      }
      var failedInConsecPayloads, breakFound, failedInStreak := 0, false, 0;
      for i := 0 to |tags|
        invariant failedInStreak == CountFailed(tags[..i], failedPayloads)
        invariant !breakFound ==> failedInConsecPayloads == i
        invariant breakFound ==> failedInConsecPayloads < i && tags[failedInConsecPayloads] !in failedPayloads
        invariant forall j :: 0 <= j < failedInConsecPayloads ==> tags[j] in failedPayloads
        modifies {}
      {
        assert tags[..i + 1][..i] == tags[..i];
        if tags[i] in failedPayloads {
          if !breakFound {
            failedInConsecPayloads := failedInConsecPayloads + 1;
          }
          failedInStreak := failedInStreak + 1;
        } else {
          breakFound := true;
        }
      }
      assert tags[..|tags|] == tags;
      LeadingUnique(tags, failedPayloads, failedInConsecPayloads);
      blockerScore := Min(failedInConsecPayloads * 25, 100);
      reasons := reasons + ["failed in most recent rejected payloads"];
      var percentage := percent(failedInStreak, |tags|);
      reasons := reasons + ["failed in current rejected payload streak"];
      if blockerScore >= 50 && percentage >= blockerScore {
        blockerScore := percentage;
      }
    }
  }

  lemma {:induction false} LeadingUnique(tags: seq<string>, failed: set<string>, n: nat)
    requires n <= |tags| && (forall i :: 0 <= i < n ==> tags[i] in failed) && (n < |tags| ==> tags[n] !in failed)
    ensures n == Leading(tags, failed)
  {
    if n > 0 {
      forall i | 0 <= i < n - 1 ensures tags[1..][i] in failed { assert tags[1..][i] == tags[i + 1]; }
      LeadingUnique(tags[1..], failed, n - 1);
    }
  }

  lemma {:induction false} LeadingFailCounted(tags: seq<string>, failed: set<string>)
    ensures Leading(tags, failed) <= CountFailed(tags, failed)
    ensures CountFailed(tags, failed) == |tags| <==> Leading(tags, failed) == |tags|
  {
    if tags != [] {
      var init, last := tags[..|tags| - 1], |tags| - 1;
      LeadingFailCounted(init, failed);
      if Leading(init, failed) == last && tags[last] in failed {
        LeadingUnique(tags, failed, |tags|);
      } else if Leading(init, failed) == last {
        LeadingUnique(tags, failed, last);
      } else {
        assert init[Leading(init, failed)] == tags[Leading(init, failed)];
        LeadingUnique(tags, failed, Leading(init, failed));
      }
    }
  }

  lemma DivMonotone(a: nat, b: nat, d: nat)
    requires a <= b && d > 0
    ensures a / d <= b / d
  {
    var x, y := a / d, b / d;
    assert a == x * d + a % d && b == y * d + b % d;
    assert (x - y) * d == x * d - y * d;
    if x - y >= 1 { MulAtLeast(x - y, d); }
  }

  /** The score is a percentage, and at least 25 for each payload at the head of the streak. */
  lemma ScoreBounds(tags: seq<string>, failed: set<string>, percent: Percent)
    requires KeepsScale(percent)
    ensures 0 <= Score(tags, failed, percent) <= 100
    ensures Score(tags, failed, percent) >= Min(25 * Leading(tags, failed), 100)
  {
  }

  lemma ExactQuotient(q: nat, d: nat)
    requires d > 0
    ensures (q * d) / d == q
  {
    var r := q * d - ((q * d) / d) * d;
    var p := (q * d) / d;
    assert (q - p) * d == r && 0 <= r < d;
    if q - p >= 1 { MulAtLeast(q - p, d); }
    if q - p <= -1 { MulAtLeast(p - q, d); }
  }

  lemma {:induction false} CountMonotone(tags: seq<string>, failed: set<string>, more: set<string>)
    requires failed <= more
    ensures CountFailed(tags, failed) <= CountFailed(tags, more)
  {
    if tags != [] {
      CountMonotone(tags[..|tags| - 1], failed, more);
    }
  }

  lemma {:induction false} LeadingMonotone(tags: seq<string>, failed: set<string>, more: set<string>)
    requires failed <= more
    ensures Leading(tags, failed) <= Leading(tags, more)
  {
    if tags != [] && tags[0] in failed {
      LeadingMonotone(tags[1..], failed, more);
    }
  }

  /** Failing in more payloads never lowers the score. */
  lemma ScoreMonotone(tags: seq<string>, failed: set<string>, more: set<string>, percent: Percent)
    requires KeepsScale(percent) && failed <= more
    ensures Score(tags, failed, percent) <= Score(tags, more, percent)
  {
    if tags != [] {
      CountMonotone(tags, failed, more);
      LeadingMonotone(tags, failed, more);
    }
  }

  /** A certain blocker: four failures in a row, or every payload of a streak of two or more. */
  lemma FullScoreIff(tags: seq<string>, failed: set<string>, percent: Percent)
    requires KeepsScale(percent)
    ensures Score(tags, failed, percent) == 100 <==>
            Leading(tags, failed) >= 4 || (|tags| >= 2 && Leading(tags, failed) == |tags|)
  {
    if tags != [] {
      LeadingFailCounted(tags, failed);
    }
  }
}
