/**
 Validity of broadcast ephemerides across the week rollover. The broadcast week number may be
 truncated to 10, 12 or 13 bits; the week-crossover rule for the elapsed time is that of
 Table 20-IV in section 20.3.3.4.3 of IS-GPS-200.
 */
module Ephemeris {
  import opened Calendar
  import opened TimeSystems

  datatype Constellation = GpsSatellite | GalSatellite | BdsSatellite

  /** The fields validity depends on; `toe` is the reference time in seconds of the week. */
  datatype Ephemeris = Ephemeris(constellation: Constellation, weekNumber: nat, toe: real, fitIntervalFlag: bool)

  function Modulus(c: Constellation): int {
    match c
    case GpsSatellite => 1024
    case GalSatellite => 4096
    case BdsSatellite => 8192
  }

  /** Half the fit interval in seconds; only GPS has the flag. */
  function FitInterval(e: Ephemeris): int {
    if e.constellation.GpsSatellite? && e.fitIntervalFlag then 2 * 3600 else 4 * 3600
  }

  const HALF_WEEK := 302400.0
  const WHOLE_WEEK := 604800.0

  /** The reference time placed in a given week. */
  function ToeIn(week: int, toe: real): (t: Timestamp)
    ensures t.Full() == week as real * WHOLE_WEEK + toe
  {
    FromWeekTow(week, Trunc(toe), toe - Trunc(toe) as real)
  }

  /** (query - ephemeris + M) mod M, in the source's remainder. */
  function WeekDifference(e: Ephemeris, week: int): int {
    var modulus := Modulus(e.constellation);
    TruncMod(TruncMod(week, modulus) - TruncMod(e.weekNumber, modulus) + modulus, modulus)
  }

  /** `is_valid` of the three constellations. */
  predicate IsValid(e: Ephemeris, t: Timestamp) {
    var difference := WeekDifference(e, Week(t));
    var last := Modulus(e.constellation) - 1;
    && (difference == 0 || difference == last)
    && var full := Week(t) + (if difference == last then 1 else 0);
       var elapsed := Minus(t, ToeIn(full, e.toe)).Full();
       !(elapsed < -(FitInterval(e) as real) || elapsed > FitInterval(e) as real)
  }

  /** The two wrap-around loops of `calculate_elapsed_time`. */
  function Wrapped(difference: real): real
    decreases if difference < 0.0 then (-difference).Floor else difference.Floor
  {
    if difference < -HALF_WEEK then
      assert (-difference).Floor >= 302400;
      Wrapped(difference + WHOLE_WEEK)
    else if difference > HALF_WEEK then Wrapped(difference - WHOLE_WEEK)
    else difference
  }

  /** Elapsed time since the reference time, which is placed in the week of the query. */
  method CalculateElapsedTime(t: Timestamp, reference: real) returns (difference: real)
    ensures difference == Wrapped(Minus(t, ToeIn(Week(t), reference)).Full())
    ensures -HALF_WEEK <= difference <= HALF_WEEK
  {
    difference := Minus(t, ToeIn(Week(t), reference)).Full();
    while difference < -HALF_WEEK
      invariant Wrapped(difference) == Wrapped(Minus(t, ToeIn(Week(t), reference)).Full())
      decreases -difference
    {
      difference := difference + WHOLE_WEEK;
    }
    while difference > HALF_WEEK
      invariant difference >= -HALF_WEEK
      invariant Wrapped(difference) == Wrapped(Minus(t, ToeIn(Week(t), reference)).Full())
      decreases difference
    {
      difference := difference - WHOLE_WEEK;
    }
  }

  /** The wrapped time differs by whole weeks, stays as it is within half a week, and else stops at the first value
      within it that the loops reach. */
  lemma {:induction false} WrappedAnswer(x: real) returns (k: int)
    ensures Wrapped(x) == x + k as real * 604800.0 && -302400.0 <= Wrapped(x) <= 302400.0
    ensures -302400.0 <= x <= 302400.0 ==> Wrapped(x) == x
    ensures x < -302400.0 ==> Wrapped(x) < 302400.0
    ensures x > 302400.0 ==> Wrapped(x) > -302400.0
    decreases if x < 0.0 then (-x).Floor else x.Floor
  {
    k := 0;
    if x < -302400.0 {
      assert (-x).Floor >= 302400;
      k := WrappedAnswer(x + 604800.0);
      k := k + 1;
    } else if x > 302400.0 {
      k := WrappedAnswer(x - 604800.0);
      k := k - 1;
    }
  }

  // ------------------------------------------------------------- the results

  /** Week w is one the (possibly truncated) week number may stand for. */
  predicate Stands(e: Ephemeris, w: int) {
    match e.constellation
    case GpsSatellite => (w - e.weekNumber) % 1024 == 0
    case GalSatellite => (w - e.weekNumber) % 4096 == 0
    case BdsSatellite => (w - e.weekNumber) % 8192 == 0
  }

  /** t is within the fit interval of the reference time in week w: two hours either way for GPS with the flag, and
      four otherwise. */
  predicate Fits(e: Ephemeris, t: Timestamp, w: int) {
    var elapsed := t.seconds as real + t.fraction - (w as real * 604800.0 + e.toe);
    if e.constellation.GpsSatellite? && e.fitIntervalFlag then -7200.0 <= elapsed <= 7200.0 else -14400.0 <= elapsed <= 14400.0
  }

  predicate WeekModulus(m: int) { m == 1024 || m == 4096 || m == 8192 }

  lemma AddMultiple(d: int, m: int, k: int)
    requires WeekModulus(m)
    ensures (d + m * k) % m == d % m
  {
    if m == 1024 {
      assert (d + 1024 * k) % 1024 == d % 1024;
    } else if m == 4096 {
      assert (d + 4096 * k) % 4096 == d % 4096;
    } else {
      assert (d + 8192 * k) % 8192 == d % 8192;
    }
  }

  /** From week 0 on the next week is always recognised; before it only where the remainder toward zero agrees. */
  predicate Recognised(e: Ephemeris, w: int, q: int) {
    w == q || (w == q + 1 && (q >= 0 ||
      match e.constellation
      case GpsSatellite => (q + 1) % 1024 <= 1
      case GalSatellite => (q + 1) % 4096 <= 1
      case BdsSatellite => (q + 1) % 8192 <= 1))
  }

  lemma QuotientIs(y: int, m: int, k: int, r: int)
    requires WeekModulus(m) && y == m * k + r && 0 <= r < m
    ensures y / m == k && y % m == r
  {
    if m == 1024 {
      assert y / 1024 == k;
    } else if m == 4096 {
      assert y / 4096 == k;
    } else {
      assert y / 8192 == k;
    }
  }

  /** The remainder toward zero against the residue. */
  lemma TruncResidue(x: int, m: int, k: int, r: int)
    requires WeekModulus(m) && x == m * k + r && 0 <= r < m
    ensures TruncMod(x, m) == if x >= 0 || r == 0 then r else r - m
  {
    if x >= 0 {
      QuotientIs(x, m, k, r);
    } else if r == 0 {
      QuotientIs(-x, m, -k, 0);
    } else {
      QuotientIs(-x, m, -k - 1, m - r);
    }
  }

  /** The difference of two remainders, folded back into range. */
  lemma FoldedDifference(m: int, a: int, b: int)
    requires WeekModulus(m) && -m < a < m && 0 <= b < m
    ensures TruncMod(a - b + m, m) == 0 <==> a == b || a == b - m
    ensures TruncMod(a - b + m, m) == m - 1 <==> a == b - 1 || a == b + m - 1
  {
    var x := a - b + m;
    if x < 0 {
      TruncResidue(x, m, -1, x + m);
    } else if x < m {
      TruncResidue(x, m, 0, x);
    } else {
      TruncResidue(x, m, 1, x - m);
    }
  }

  lemma Congruent(m: int, x: int, y: int)
    requires WeekModulus(m) && 0 <= x % m < m && 0 <= y % m < m
    ensures (x - y) % m == 0 <==> x % m == y % m
  {
    var d := x % m - y % m;
    assert x - y == d + m * (x / m - y / m) by {
      assert m * (x / m - y / m) == m * (x / m) - m * (y / m);
    }
    AddMultiple(d, m, x / m - y / m);
    QuotientIs(d, m, if d >= 0 then 0 else -1, if d >= 0 then d else d + m);
  }

  lemma NextResidue(m: int, x: int)
    requires WeekModulus(m) && 0 <= x % m < m
    ensures (x + 1) % m == if x % m == m - 1 then 0 else x % m + 1
  {
    var k, r := x / m, x % m;
    if r == m - 1 {
      assert x + 1 == m * (k + 1) + 0 by {
        assert m * (k + 1) == m * k + m;
      }
      QuotientIs(x + 1, m, k + 1, 0);
    } else {
      QuotientIs(x + 1, m, k, r + 1);
    }
  }

  /** What a difference of 0 or M - 1 means, for every week, also before the epoch. */
  lemma DifferenceMeansWeek(e: Ephemeris, q: int)
    ensures WeekDifference(e, q) == 0 <==> Stands(e, q)
    ensures WeekDifference(e, q) == Modulus(e.constellation) - 1 <==> Stands(e, q + 1) && Recognised(e, q + 1, q)
  {
    var m, n := Modulus(e.constellation), e.weekNumber;
    TruncResidue(q, m, q / m, q % m);
    TruncResidue(n, m, n / m, n % m);
    Congruent(m, q, n);
    Congruent(m, q + 1, n);
    NextResidue(m, q);
    FoldedDifference(m, TruncMod(q, m), TruncMod(n, m));
  }

  /** An accepted time lies within the fit interval of a reference time in a week the week number may
      stand for, and the elapsed time, computed from the query's week, is the time since that one. */
  lemma AcceptedElapsed(e: Ephemeris, t: Timestamp) returns (w: int)
    requires t.Normal() && IsValid(e, t)
    ensures w == Week(t) || w == Week(t) + 1
    ensures Stands(e, w) && Fits(e, t, w)
    ensures Wrapped(Minus(t, ToeIn(Week(t), e.toe)).Full()) == t.Full() - (w as real * WHOLE_WEEK + e.toe)
  {
    w := if WeekDifference(e, Week(t)) == Modulus(e.constellation) - 1 then Week(t) + 1 else Week(t);
    DifferenceMeansWeek(e, Week(t));
    var elapsed := t.Full() - (w as real * WHOLE_WEEK + e.toe);
    assert Minus(t, ToeIn(w, e.toe)).Full() == elapsed;
    var difference := Minus(t, ToeIn(Week(t), e.toe)).Full();
    if w == Week(t) + 1 {
      assert difference == elapsed + WHOLE_WEEK;
      assert Wrapped(difference) == Wrapped(difference - WHOLE_WEEK);
    }
  }

  /** For every instant and every ephemeris: a time is accepted exactly when the week number may stand for its week,
      or for the next one where that is recognised, and the reference time of that week is within the fit interval. */
  lemma AcceptedIff(e: Ephemeris, t: Timestamp)
    requires t.Normal()
    ensures IsValid(e, t) <==> exists w :: Recognised(e, w, Week(t)) && Stands(e, w) && Fits(e, t, w)
  {
    var q := Week(t);
    DifferenceMeansWeek(e, q);
    NotBoth(e, q);
    if IsValid(e, t) {
      var w := AcceptedElapsed(e, t);
      assert w == q + 1 ==> WeekDifference(e, q) == Modulus(e.constellation) - 1;
      assert Recognised(e, w, q);
    }
    forall w | Recognised(e, w, q) && Stands(e, w) && Fits(e, t, w) ensures IsValid(e, t) {
      assert Minus(t, ToeIn(w, e.toe)).Full() == t.Full() - (w as real * WHOLE_WEEK + e.toe);
    }
  }

  /** From the system's epoch on, for every reference time that is not negative: accepted exactly when any week at or
      after its own, which the week number may stand for, has its reference time within the fit interval. */
  lemma AcceptedFromEpoch(e: Ephemeris, t: Timestamp)
    requires t.Normal() && t.seconds >= 0 && e.toe >= 0.0
    ensures IsValid(e, t) <==> exists w :: w >= Week(t) && Stands(e, w) && Fits(e, t, w)
  {
    var q := Week(t);
    AcceptedIff(e, t);
    if w :| Recognised(e, w, q) && Stands(e, w) && Fits(e, t, w) {
      assert w >= q;
    }
    forall w | w >= q && Stands(e, w) && Fits(e, t, w) ensures Recognised(e, w, q) {
      assert t.Full() < (q + 1) as real * WHOLE_WEEK;
      assert w as real * WHOLE_WEEK >= (q + 2) as real * WHOLE_WEEK || w <= q + 1;
    }
  }

  /** No week number stands for two weeks this close. */
  lemma NotBoth(e: Ephemeris, w: int)
    ensures !(Stands(e, w) && Stands(e, w + 1))
    ensures !(Stands(e, w) && Stands(e, w + 2))
  {
    var m := Modulus(e.constellation);
    Congruent(m, w, e.weekNumber);
    Congruent(m, w + 1, e.weekNumber);
    Congruent(m, w + 2, e.weekNumber);
    NextResidue(m, w);
    NextResidue(m, w + 1);
  }

  /** An ephemeris of the previous week is rejected however recent its reference time is. */
  lemma PreviousWeekRejected(e: Ephemeris, t: Timestamp)
    requires Stands(e, Week(t) - 1)
    ensures !IsValid(e, t)
  {
    DifferenceMeansWeek(e, Week(t));
    NotBoth(e, Week(t) - 1);
  }

  /** For one, one second after its reference time, at the start of the next week. */
  lemma PreviousWeekInput(e: Ephemeris, t: Timestamp)
    requires e == Ephemeris(GpsSatellite, 99, 604799.0, false) && t == Timestamp(100 * WEEK, 0.0)
    ensures Stands(e, 99) && Fits(e, t, 99) && !IsValid(e, t)
  {
    PreviousWeekRejected(e, t);
  }
}
