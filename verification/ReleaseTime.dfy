/**
 Release-time rounding (pkg/util/utils.go). Times are nanoseconds since Go's zero time, which is
 a UTC midnight, and durations are nanoseconds.
 */
module ReleaseTime {
  import opened Common

  const Second := 1_000_000_000
  const Hour := 3600 * Second
  const Day := 24 * Hour

  /** `t.Truncate(factor)`: the last multiple of the factor since the zero time. */
  function Truncate(t: int, factor: int): int
    requires factor > 0
  {
    t - t % factor
  }

  /** The last boundary congruent to the offset that is not after `t`. */
  function TruncateAligned(t: int, factor: int, offset: int): (r: int)
    ensures factor <= 0 ==> r == t
    ensures factor > 0 ==> r <= t < r + factor && IsBoundary(r, factor, offset)
  {
    if factor <= 0 then t
    else
      TruncateIsMultiple(t - offset, factor);
      Truncate(t - offset, factor) + offset
  }

  predicate IsBoundary(t: int, factor: int, offset: int)
    requires factor > 0
  {
    (t - offset) % factor == 0
  }

  lemma TruncateIsMultiple(t: int, factor: int)
    requires factor > 0
    ensures Truncate(t, factor) % factor == 0
  {
    var q := t / factor;
    assert Truncate(t, factor) == q * factor;
    MultipleIsZero(q, factor);
  }

  lemma MultipleIsZero(q: int, d: int)
    requires d > 0
    ensures (q * d) % d == 0
  {
    var r := (q * d) % d;
    var p := (q * d) / d;
    assert q * d == p * d + r;
    assert (q - p) * d == r;
    if q - p >= 1 {
      MulAtLeast(q - p, d);
    } else if q - p <= -1 {
      MulAtLeast(p - q, d);
    }
  }

  /** Boundaries lie a multiple of the factor apart. */
  lemma BoundariesApart(a: int, b: int, factor: int, offset: int)
    requires factor > 0 && IsBoundary(a, factor, offset) && IsBoundary(b, factor, offset) && a < b
    ensures a + factor <= b
  {
    var p, q := (a - offset) / factor, (b - offset) / factor;
    assert a - offset == p * factor && b - offset == q * factor;
    assert (q - p) * factor == b - a;
    if q - p <= 0 {
      MulNonPositive(q - p, factor);
    }
    MulAtLeast(q - p, factor);
  }

  lemma MulNonPositive(n: int, d: int)
    requires n <= 0 && d > 0
    ensures n * d <= 0
  {
  }

  /** Truncation is the unique boundary in the factor-wide interval ending at `t`. */
  lemma TruncateUnique(t: int, b: int, factor: int, offset: int)
    requires factor > 0 && IsBoundary(b, factor, offset) && b <= t < b + factor
    ensures TruncateAligned(t, factor, offset) == b
  {
    var r := TruncateAligned(t, factor, offset);
    if r < b { BoundariesApart(r, b, factor, offset); }
    if b < r { BoundariesApart(b, r, factor, offset); }
  }

  // ---------------------------------------------------------------------------------------
  // AdjustReleaseTime

  function Midnight(t: int): (r: int)
    ensures r <= t < r + Day
  {
    t - t % Day
  }

  predicate SameDay(a: int, b: int) {
    Midnight(a) == Midnight(b)
  }

  lemma MidnightMonotone(a: int, b: int)
    requires a <= b
    ensures Midnight(a) <= Midnight(b)
  {
    if Midnight(a) > Midnight(b) {
      assert IsBoundary(Midnight(a), Day, 0) && IsBoundary(Midnight(b), Day, 0) by {
        TruncateIsMultiple(a, Day);
        TruncateIsMultiple(b, Day);
      }
      BoundariesApart(Midnight(b), Midnight(a), Day, 0);
    }
  }

  lemma MidnightShift(t: int, days: int)
    ensures Midnight(t - days * Day) == Midnight(t) - days * Day
  {
    TruncateIsMultiple(t, Day);
    assert Midnight(t) % Day == 0;
    var m := Midnight(t) - days * Day;
    var q := Midnight(t) / Day;
    assert Midnight(t) == q * Day;
    assert m == (q - days) * Day;
    MultipleIsZero(q - days, Day);
    assert IsBoundary(m, Day, 0);
    TruncateUnique(t - days * Day, m, Day, 0);
    assert TruncateAligned(t - days * Day, Day, 0) == Midnight(t - days * Day);
  }

  /** `AdjustReleaseTime`; `now` is the clock reading inside the call. */
  function AdjustReleaseTime(relTime: int, isStart: bool, days: nat, factor: int, offset: int, now: int): int {
    var rel := relTime - days * Day;
    if isStart then Midnight(rel)
    else if factor > 0 && SameDay(now, rel) then TruncateAligned(now, factor, offset)
    else Midnight(rel) + 23 * Hour + 59 * 60 * Second + 59 * Second
  }

  /**
   A start that reaches back at least one day further than the end, from a reference that is not
   later, never ends up after it, even when rounding pulls today's end into yesterday.
   */
  lemma StartNotAfterEnd(startRef: int, endRef: int, startDays: nat, endDays: nat, factor: int, offset: int,
                         startNow: int, endNow: int)
    requires startRef <= endRef && endDays < startDays && factor <= Day
    ensures AdjustReleaseTime(startRef, true, startDays, factor, offset, startNow) <=
            AdjustReleaseTime(endRef, false, endDays, factor, offset, endNow)
  {
    MidnightShift(startRef, startDays);
    MidnightShift(endRef, endDays);
    MidnightMonotone(startRef, endRef);
  }

  /**
   With the same reference and no day between them, the start is at or before the end exactly when
   the end is not rounded, or a rounding boundary has already passed today.
   */
  lemma SameDayOrderedIff(relTime: int, days: nat, factor: int, offset: int, startNow: int, endNow: int)
    ensures AdjustReleaseTime(relTime, true, days, factor, offset, startNow) <=
            AdjustReleaseTime(relTime, false, days, factor, offset, endNow) <==>
            (factor > 0 && SameDay(endNow, relTime - days * Day) ==>
               exists b :: Midnight(endNow) <= b <= endNow && IsBoundary(b, factor, offset))
  {
    var rel := relTime - days * Day;
    if factor > 0 && SameDay(endNow, rel) {
      var r := TruncateAligned(endNow, factor, offset);
      if b :| Midnight(endNow) <= b <= endNow && IsBoundary(b, factor, offset) {
        if r < b { BoundariesApart(r, b, factor, offset); }
      }
      if Midnight(rel) <= r {
        assert Midnight(endNow) <= r <= endNow && IsBoundary(r, factor, offset);
      }
    }
  }

  /**
   From the same reference, the start is the first instant of its day. An end that is not rounded is the last
   second of its own day, so the window covers whole days; a rounded one is the last boundary that has passed.
   */
  lemma WindowCoversDays(relTime: int, startDays: nat, endDays: nat, factor: int, offset: int, startNow: int,
                         endNow: int)
    ensures var start := AdjustReleaseTime(relTime, true, startDays, factor, offset, startNow);
            var end := AdjustReleaseTime(relTime, false, endDays, factor, offset, endNow);
            && IsBoundary(start, Day, 0) && start <= relTime - startDays * Day < start + Day
            && if factor > 0 && SameDay(endNow, relTime - endDays * Day) then
                 IsBoundary(end, factor, offset) && end <= endNow < end + factor
               else
                 IsBoundary(end + 1_000_000_000, Day, 0) &&
                 end + 1_000_000_000 - start == (startDays - endDays + 1) * 86_400_000_000_000
  {
    var start, end := relTime - startDays * Day, relTime - endDays * Day;
    MidnightShift(relTime, startDays);
    MidnightShift(relTime, endDays);
    MidnightIsBoundary(start);
    MidnightIsBoundary(end);
    hide Midnight, IsBoundary;
  }

  lemma MidnightIsBoundary(t: int)
    ensures IsBoundary(Midnight(t), Day, 0) && IsBoundary(Midnight(t) + Day, Day, 0)
  {
    TruncateIsMultiple(t, Day);
    var q := Midnight(t) / Day;
    assert Midnight(t) + Day == (q + 1) * Day;
    MultipleIsZero(q + 1, Day);
  }

  /** The default flags (12h blocks shifted by 4h) at 02:00 with `now` for both: the end is yesterday 16:00. */
  lemma DefaultFlagsCounterexample(midnight: int)
    requires midnight % Day == 0
    ensures var now := midnight + 2 * Hour;
            && AdjustReleaseTime(now, true, 0, 12 * Hour, 4 * Hour, now) == midnight
            && AdjustReleaseTime(now, false, 0, 12 * Hour, 4 * Hour, now) == midnight - 8 * Hour
  {
    var now := midnight + 2 * Hour;
    assert IsBoundary(midnight, Day, 0);
    TruncateUnique(now, midnight, Day, 0);
    assert Midnight(now) == midnight;
    var q := midnight / Day;
    assert midnight - 12 * Hour == (2 * q - 1) * (12 * Hour);
    MultipleIsZero(2 * q - 1, 12 * Hour);
    TruncateUnique(now, midnight - 8 * Hour, 12 * Hour, 4 * Hour);
  }

  // ---------------------------------------------------------------------------------------
  // ParseCRReleaseTime

  datatype Release = Release(name: string, gaDate: Option<int>)

  datatype Base = Now | Ga | End

  /** A time string after matching: relative to a base, an RFC 3339 time with its zone offset, or neither. */
  datatype TimeString = Relative(base: Base, days: nat) | Absolute(time: int, zone: int) | Malformed

  /**
   An absolute time is taken for today when its date in its own zone is today's date in UTC. That is the
   same as comparing UTC dates, whatever the clock says, exactly when the zone does not change the date.
   */
  lemma OwnZoneAgreesIff(time: int, zone: int)
    ensures (forall now :: SameDay(now, time + zone) <==> SameDay(now, time)) <==> SameDay(time, time + zone)
  {
    if forall now :: SameDay(now, time + zone) <==> SameDay(now, time) {
      assert SameDay(time, time) && SameDay(time, time + zone);
    }
  }

  /** Half past midnight at +05:00 is the day before in UTC: no rounding in the evening of that UTC day. */
  lemma OwnZoneCounterexample(midnight: int)
    requires midnight % Day == 0
    ensures var now, time, zone := midnight - 4 * Hour, midnight + 1800 * Second - 5 * Hour, 5 * Hour;
            SameDay(now, time) && !SameDay(now, time + zone)
  {
    var today := midnight - Day;
    var q := midnight / Day;
    assert today == (q - 1) * Day;
    MultipleIsZero(q - 1, Day);
    assert IsBoundary(midnight, Day, 0) && IsBoundary(today, Day, 0);
    TruncateUnique(midnight - 4 * Hour, today, Day, 0);
    TruncateUnique(midnight + 1800 * Second - 5 * Hour, today, Day, 0);
    TruncateUnique(midnight + 1800 * Second, midnight, Day, 0);
  }

  /** The GA date of the last listed release of that name that has one. */
  function GaDate(releases: seq<Release>, name: string): Option<int> {
    if releases == [] then None
    else
      var last := releases[|releases| - 1];
      if last.name == name && last.gaDate.Some? then last.gaDate
      else GaDate(releases[..|releases| - 1], name)
  }

  /** The reference a relative time counts from. */
  function Reference(base: Base, releases: seq<Release>, release: string, isStart: bool, endTime: Option<int>,
                     now: int): Option<int>
  {
    match base
    case Now => Some(now)
    case Ga => GaDate(releases, release)
    case End => if isStart then endTime else None
  }

  method ParseCRReleaseTime(releases: seq<Release>, release: string, timeStr: TimeString, isStart: bool,
                            endTime: Option<int>, factor: int, offset: int, now: int, later: int)
    returns (r: Result<int>)
    requires now <= later
    ensures timeStr.Malformed? ==> r.Err?
    ensures timeStr.Relative? ==>
              var ref := Reference(timeStr.base, releases, release, isStart, endTime, now);
              r.Ok? == ref.Some? &&
              (r.Ok? ==> r.value == AdjustReleaseTime(ref.value, isStart, timeStr.days, factor, offset, later))
    ensures timeStr.Relative? && timeStr.base.End? && r.Ok? ==> r.value <= endTime.value - timeStr.days * Day
    ensures timeStr.Absolute? ==>
              r == Ok(if factor > 0 && SameDay(now, timeStr.time + timeStr.zone)
                      then TruncateAligned(now, factor, offset) else timeStr.time)
  {
    var gaDateMap: map<string, int> := map[];
    for i := 0 to |releases|
      invariant forall name :: name in gaDateMap <==> GaDate(releases[..i], name).Some?
      invariant forall name :: name in gaDateMap ==> GaDate(releases[..i], name) == Some(gaDateMap[name])
    {
      assert releases[..i + 1][..i] == releases[..i];
      if releases[i].gaDate.Some? {
        gaDateMap := gaDateMap[releases[i].name := releases[i].gaDate.value];
      }
    }
    assert releases[..|releases|] == releases;
    match timeStr {
      case Relative(base, days) =>
        var relTime;
        match base {
          case Now =>
            relTime := now;
          case Ga =>
            if release !in gaDateMap { return Err("unable to find ga date"); }
            relTime := gaDateMap[release];
          case End =>
            if endTime.None? { return Err("caller provided no end time"); }
            if !isStart { return Err("cannot calculate a relative end date for an end date"); }
            relTime := endTime.value;
        }
        r := Ok(AdjustReleaseTime(relTime, isStart, days, factor, offset, later));
      case Absolute(time, zone) =>
        r := Ok(if factor > 0 && SameDay(now, time + zone) then TruncateAligned(now, factor, offset) else time);
      case Malformed =>
        r := Err("cannot parse time");
    }
  }
}
