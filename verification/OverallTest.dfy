/**
 The "Overall" row of a test report (pkg/api/tests.go:574-615), with exact quotients.
 */
module OverallTest {

  /** The counts of one period. */
  datatype Counts = Counts(runs: nat, successes: nat, failures: nat, flakes: nat)

  datatype Row = Row(current: Counts, previous: Counts)

  function NoRuns(): Counts {
    Counts(0, 0, 0, 0)
  }

  function Add(a: Counts, b: Counts): Counts {
    Counts(a.runs + b.runs, a.successes + b.successes, a.failures + b.failures, a.flakes + b.flakes)
  }

  function Sum(cs: seq<Counts>): Counts {
    if cs == [] then Counts(0, 0, 0, 0) else Add(Sum(cs[..|cs| - 1]), cs[|cs| - 1])
  }

  /** The sum of one figure over the rows. */
  function SumOf(cs: seq<Counts>, figure: Counts -> nat): nat {
    if cs == [] then 0 else figure(cs[0]) + SumOf(cs[1..], figure)
  }

  /** Each figure of a total is the sum of that figure, and of no other. */
  lemma {:induction false} SumIsFieldwise(cs: seq<Counts>)
    ensures Sum(cs).runs == SumOf(cs, (c: Counts) => c.runs)
    ensures Sum(cs).successes == SumOf(cs, (c: Counts) => c.successes)
    ensures Sum(cs).failures == SumOf(cs, (c: Counts) => c.failures)
    ensures Sum(cs).flakes == SumOf(cs, (c: Counts) => c.flakes)
  {
    if cs != [] {
      SumIsFieldwise(cs[1..]);
      SumConcat([cs[0]], cs[1..]);
      assert [cs[0]] + cs[1..] == cs && [cs[0]][..0] == [];
    }
  }

  function Currents(rows: seq<Row>): (cs: seq<Counts>)
    ensures |cs| == |rows|
  {
    seq(|rows|, i requires 0 <= i < |rows| => rows[i].current)
  }

  function Previouses(rows: seq<Row>): (cs: seq<Counts>)
    ensures |cs| == |rows|
  {
    seq(|rows|, i requires 0 <= i < |rows| => rows[i].previous)
  }

  function SafePercent(numerator: nat, denominator: nat): real {
    if denominator == 0 then 0.0 else numerator as real * 100.0 / denominator as real
  }

  function PassPercent(c: Counts): real {
    SafePercent(c.successes, c.runs)
  }

  /** The aggregate that the API returns. */
  class Overall {
    var current: Counts
    var previous: Counts
    var currentPass: real
    var currentFailure: real
    var currentFlake: real
    var currentWorking: real
    var previousPass: real
    var previousFailure: real
    var previousFlake: real
    var previousWorking: real
    var netFailureImprovement: real
    var netFlakeImprovement: real
    var netWorkingImprovement: real
    var netImprovement: real

    constructor ()
      ensures current == NoRuns() && previous == NoRuns()
    {
      current, previous := NoRuns(), NoRuns();
    }

    method Accumulate(rows: seq<Row>)
      requires current == NoRuns() && previous == NoRuns()
      modifies `current, `previous
      ensures current == Sum(Currents(rows)) && previous == Sum(Previouses(rows))
    {
      for i := 0 to |rows|
        invariant current == Sum(Currents(rows[..i])) && previous == Sum(Previouses(rows[..i]))
      {
        assert Currents(rows[..i + 1])[..i] == Currents(rows[..i]);
        assert Previouses(rows[..i + 1])[..i] == Previouses(rows[..i]);
        current := Add(current, rows[i].current);
        previous := Add(previous, rows[i].previous);
      }
      assert rows[..|rows|] == rows;
    }

    /** `computeOverallTest` on a fresh row. */
    method Compute(rows: seq<Row>)
      requires current == NoRuns() && previous == NoRuns()
      modifies this
      ensures current == Sum(Currents(rows)) && previous == Sum(Previouses(rows))
      ensures currentPass == PassPercent(current) && previousPass == PassPercent(previous)
      ensures currentFailure == SafePercent(current.failures, current.runs)
      ensures previousFailure == SafePercent(previous.failures, previous.runs)
      ensures currentFlake == SafePercent(current.flakes, current.runs)
      ensures previousFlake == SafePercent(previous.flakes, previous.runs)
      ensures currentWorking == currentPass + currentFlake
      ensures previousWorking == previousPass + previousFlake
      ensures netImprovement == currentPass - previousPass && netWorkingImprovement == currentWorking - previousWorking
      ensures netFailureImprovement == previousFailure - currentFailure &&
              netFlakeImprovement == previousFlake - currentFlake
    {
      Accumulate(rows);
      PercentAdds(current.successes, current.flakes, current.runs);
      PercentAdds(previous.successes, previous.flakes, previous.runs);
      hide SafePercent, Sum, Currents, Previouses;
      currentPass := SafePercent(current.successes, current.runs);
      currentFailure := SafePercent(current.failures, current.runs);
      currentFlake := SafePercent(current.flakes, current.runs);
      currentWorking := SafePercent(current.successes + current.flakes, current.runs);
      previousPass := SafePercent(previous.successes, previous.runs);
      previousFailure := SafePercent(previous.failures, previous.runs);
      previousFlake := SafePercent(previous.flakes, previous.runs);
      previousWorking := SafePercent(previous.successes + previous.flakes, previous.runs);
      netFailureImprovement := previousFailure - currentFailure;
      netFlakeImprovement := previousFlake - currentFlake;
      netWorkingImprovement := currentWorking - previousWorking;
      netImprovement := currentPass - previousPass;
    }
  }

  lemma PercentAdds(a: nat, b: nat, d: nat)
    ensures SafePercent(a + b, d) == SafePercent(a, d) + SafePercent(b, d)
  {
    if d > 0 {
      var x, y, z := a as real, b as real, d as real;
      assert (x + y) * 100.0 == x * 100.0 + y * 100.0;
      QuotientAdds(x * 100.0, y * 100.0, z);
    }
  }

  lemma QuotientAdds(x: real, y: real, z: real)
    requires z > 0.0
    ensures (x + y) / z == x / z + y / z
  {
    assert (x / z + y / z) * z == (x / z) * z + (y / z) * z;
  }

  /** A row whose runs are its successes, failures and flakes. */
  predicate Consistent(c: Counts) {
    c.successes + c.failures + c.flakes == c.runs
  }

  lemma {:induction false} SumIsConsistent(cs: seq<Counts>)
    requires forall i :: 0 <= i < |cs| ==> Consistent(cs[i])
    ensures Consistent(Sum(cs))
    ensures Sum(cs).runs > 0 <==> exists i :: 0 <= i < |cs| && cs[i].runs > 0
  {
    if cs != [] {
      var init := cs[..|cs| - 1];
      SumIsConsistent(init);
      if i :| 0 <= i < |init| && init[i].runs > 0 { assert cs[i].runs > 0; }
      if i :| 0 <= i < |cs| && cs[i].runs > 0 && i < |init| { assert init[i].runs > 0; }
    }
  }

  lemma WholeIs100(n: nat)
    ensures SafePercent(n, n) == if n > 0 then 100.0 else 0.0
  {
    if n > 0 {
      var z := n as real;
      assert (z * 100.0) / z * z == z * 100.0;
      var q := (z * 100.0) / z;
      if q < 100.0 { ScaleStrict(q, 100.0, z); }
      if q > 100.0 { ScaleStrict(100.0, q, z); }
    }
  }

  /** The three shares of a consistent total make up the whole. */
  lemma SharesSumTo100(c: Counts)
    requires Consistent(c)
    ensures SafePercent(c.successes, c.runs) + SafePercent(c.failures, c.runs) + SafePercent(c.flakes, c.runs) ==
            if c.runs > 0 then 100.0 else 0.0
  {
    PercentAdds(c.successes, c.failures, c.runs);
    PercentAdds(c.successes + c.failures, c.flakes, c.runs);
    WholeIs100(c.runs);
    hide SafePercent;
  }

  /** No row of the list with runs passes less often than `lo` or more often than `hi`. */
  ghost predicate PassBetween(cs: seq<Counts>, lo: real, hi: real) {
    forall i :: 0 <= i < |cs| && cs[i].runs > 0 ==> lo <= PassPercent(cs[i]) <= hi
  }

  function Times(x: real, n: nat): real {
    x * n as real
  }

  lemma TimesAdds(x: real, a: nat, b: nat)
    ensures Times(x, a + b) == Times(x, a) + Times(x, b)
    ensures Times(x, 0) == 0.0
  {
    var y, z := a as real, b as real;
    assert x * (y + z) == x * y + x * z;
  }

  lemma PercentBounds(a: nat, d: nat, lo: real, hi: real)
    requires d > 0
    ensures lo <= SafePercent(a, d) <= hi <==> Times(lo, d) <= Times(100.0, a) <= Times(hi, d)
  {
    var x, z := a as real * 100.0, d as real;
    var q := x / z;
    assert q * z == x;
    if lo <= q { ScaleMonotone(lo, q, z); } else { ScaleStrict(q, lo, z); }
    if q <= hi { ScaleMonotone(q, hi, z); } else { ScaleStrict(hi, q, z); }
  }

  lemma ScaleMonotone(a: real, b: real, z: real)
    requires a <= b && z > 0.0
    ensures a * z <= b * z
  {
  }

  lemma ScaleStrict(a: real, b: real, z: real)
    requires a < b && z > 0.0
    ensures a * z < b * z
  {
  }

  ghost predicate ScaledBetween(c: Counts, lo: real, hi: real) {
    Times(lo, c.runs) <= Times(100.0, c.successes) <= Times(hi, c.runs)
  }

  lemma ScaledRow(c: Counts, lo: real, hi: real)
    requires Consistent(c) && (c.runs > 0 ==> lo <= PassPercent(c) <= hi)
    ensures ScaledBetween(c, lo, hi)
  {
    hide SafePercent, Times;
    if c.runs > 0 {
      PercentBounds(c.successes, c.runs, lo, hi);
    } else {
      TimesAdds(lo, 0, 0);
      TimesAdds(hi, 0, 0);
      TimesAdds(100.0, 0, 0);
    }
  }

  lemma ScaledAdd(a: Counts, b: Counts, lo: real, hi: real)
    requires ScaledBetween(a, lo, hi) && ScaledBetween(b, lo, hi)
    ensures ScaledBetween(Add(a, b), lo, hi)
  {
    hide Times;
    TimesAdds(lo, a.runs, b.runs);
    TimesAdds(hi, a.runs, b.runs);
    TimesAdds(100.0, a.successes, b.successes);
  }

  lemma {:induction false} ScaledBounds(cs: seq<Counts>, lo: real, hi: real)
    requires PassBetween(cs, lo, hi) && forall i :: 0 <= i < |cs| ==> Consistent(cs[i])
    ensures ScaledBetween(Sum(cs), lo, hi)
  {
    hide SafePercent, Times, ScaledBetween, PassPercent;
    if cs == [] {
      ScaledRow(Counts(0, 0, 0, 0), lo, hi);
    } else {
      var init := cs[..|cs| - 1];
      forall i | 0 <= i < |init| && init[i].runs > 0 ensures lo <= PassPercent(init[i]) <= hi {
        assert init[i] == cs[i];
      }
      ScaledBounds(init, lo, hi);
      ScaledRow(cs[|cs| - 1], lo, hi);
      ScaledAdd(Sum(init), cs[|cs| - 1], lo, hi);
    }
  }

  /** The overall pass rate lies between those of the rows. */
  lemma OverallBetweenRows(cs: seq<Counts>, lo: real, hi: real)
    requires forall i :: 0 <= i < |cs| ==> Consistent(cs[i])
    requires PassBetween(cs, lo, hi) && exists i :: 0 <= i < |cs| && cs[i].runs > 0
    ensures lo <= PassPercent(Sum(cs)) <= hi
  {
    hide Sum, SafePercent, PassBetween, Times;
    SumIsConsistent(cs);
    ScaledBounds(cs, lo, hi);
    PercentBounds(Sum(cs).successes, Sum(cs).runs, lo, hi);
  }

  lemma {:induction false} SumConcat(a: seq<Counts>, b: seq<Counts>)
    ensures Sum(a + b) == Add(Sum(a), Sum(b))
  {
    if b == [] {
      assert a + b == a;
    } else {
      assert (a + b)[..|a + b| - 1] == a + b[..|b| - 1];
      SumConcat(a, b[..|b| - 1]);
    }
  }

  lemma TakeOut(b: seq<Counts>, i: nat)
    requires i < |b|
    ensures Sum(b) == Add(Sum(b[..i] + b[i + 1..]), b[i])
    ensures multiset(b[..i] + b[i + 1..]) == multiset(b) - multiset{b[i]}
  {
    hide Sum;
    var before, after := b[..i], b[i + 1..];
    assert b == (before + [b[i]]) + after;
    SumOfOne(b[i]);
    SumConcat(before + [b[i]], after);
    SumConcat(before, [b[i]]);
    SumConcat(before, after);
  }

  lemma SumOfOne(c: Counts)
    ensures Sum([c]) == c
  {
    assert [c][..0] == [];
  }

  /** Reordering the rows changes nothing. */
  lemma {:induction false} SumOfPermutation(a: seq<Counts>, b: seq<Counts>)
    requires multiset(a) == multiset(b)
    ensures Sum(a) == Sum(b)
    decreases |a|
  {
    hide Sum;
    if a == [] {
      assert |multiset(b)| == 0;
    } else {
      var x := a[0];
      assert x in multiset(b);
      var i :| 0 <= i < |b| && b[i] == x;
      TakeOut(a, 0);
      TakeOut(b, i);
      SumOfPermutation(a[..0] + a[1..], b[..i] + b[i + 1..]);
    }
  }
}
